/** The inner `toAccelerator` of `registerGlobalHotkey`: a recorded hotkey such as
    "Ctrl+Shift+K" becomes an Electron accelerator by renaming the `Ctrl` and `Meta` tokens. */
module ElectronAccelerators {
  import opened Text

  function AcceleratorToken(p: string): (t: string)
    ensures '+' in t <==> '+' in p
  {
    if p == "Ctrl" then "CommandOrControl" else if p == "Meta" then "Super" else p
  }

  function MapTokens(ps: seq<string>): (r: seq<string>)
    ensures |r| == |ps| && forall i :: 0 <= i < |ps| ==> r[i] == AcceleratorToken(ps[i])
  {
    seq(|ps|, i requires 0 <= i < |ps| => AcceleratorToken(ps[i]))
  }

  /** `toAccelerator(hk)`; the empty (falsy) hotkey gives "". */
  function ElectronAccelerator(hk: string): (a: string)
    ensures hk == "" ==> a == ""
  {
    if hk == "" then "" else Join(MapTokens(Split(hk, '+')), "+")
  }

  /** The accelerator has as many `+`-separated tokens as the hotkey, each one the hotkey's
      token renamed (`Ctrl` to `CommandOrControl`, `Meta` to `Super`, all others kept). */
  lemma ElectronAcceleratorTokens(hk: string)
    requires hk != ""
    ensures Split(ElectronAccelerator(hk), '+') == MapTokens(Split(hk, '+'))
  {
    var parts := MapTokens(Split(hk, '+'));
    SplitJoin(parts, '+');
  }

  /** A hotkey is recovered from its accelerator by renaming the tokens back, so two hotkeys
      without `CommandOrControl` or `Super` tokens of their own never share an accelerator. */
  lemma ElectronAcceleratorInjective(h1: string, h2: string)
    requires forall i :: 0 <= i < |Split(h1, '+')| ==> Split(h1, '+')[i] != "CommandOrControl" && Split(h1, '+')[i] != "Super"
    requires forall i :: 0 <= i < |Split(h2, '+')| ==> Split(h2, '+')[i] != "CommandOrControl" && Split(h2, '+')[i] != "Super"
    requires ElectronAccelerator(h1) == ElectronAccelerator(h2)
    ensures h1 == h2
  {
    if h1 != "" && h2 != "" {
      ElectronAcceleratorTokens(h1);
      ElectronAcceleratorTokens(h2);
      var p1 := Split(h1, '+');
      var p2 := Split(h2, '+');
      assert |p1| == |p2|;
      forall i | 0 <= i < |p1| ensures p1[i] == p2[i] {
        assert MapTokens(p1)[i] == MapTokens(p2)[i];
      }
      assert p1 == p2;
      JoinSplit(h1, '+');
      JoinSplit(h2, '+');
    } else if h1 != "" {
      ElectronAcceleratorTokens(h1);
    } else if h2 != "" {
      ElectronAcceleratorTokens(h2);
    }
  }
}
