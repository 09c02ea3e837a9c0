/** The preset record and the three preset sections ("views") the Tauri front end keeps. */
module Sections {

  /** One prompt preset (also called a profile): a stable id, a label and the prompt text. */
  datatype Profile = Profile(id: string, name: string, prompt: string)

  function Ids(ps: seq<Profile>): (ids: seq<string>)
    ensures |ids| == |ps|
    ensures forall i :: 0 <= i < |ps| ==> ids[i] == ps[i].id
  {
    seq(|ps|, i requires 0 <= i < |ps| => ps[i].id)
  }

  predicate HasId(ps: seq<Profile>, id: string) {
    exists i :: 0 <= i < |ps| && ps[i].id == id
  }

  datatype View = Screenshot | InputField | Selection

  /** The order in which the sources visit the sections. */
  const AllViews: seq<View> := [Screenshot, InputField, Selection]

  /** A record with one entry per section, like `Record<View, T>`. */
  datatype PerView<T> = PerView(screenshot: T, inputField: T, selection: T) {

    function Get(v: View): T {
      match v
      case Screenshot => screenshot
      case InputField => inputField
      case Selection => selection
    }

    /** `{ ...this, [v]: x }` */
    function Set(v: View, x: T): (r: PerView<T>)
      ensures r.Get(v) == x
      ensures forall u :: u != v ==> r.Get(u) == Get(u)
    {
      match v
      case Screenshot => this.(screenshot := x)
      case InputField => this.(inputField := x)
      case Selection => this.(selection := x)
    }
  }

  function Uniform<T>(x: T): (r: PerView<T>)
    ensures forall v :: r.Get(v) == x
  {
    PerView(x, x, x)
  }
}
