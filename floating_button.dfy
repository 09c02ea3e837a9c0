/** The floating button of the Electron build (`src/floating-main.jsx`): the processing
    status it shows, which picture and caption go with it, and whether a click opens the
    main window. */
module FloatingButton {
  import opened Js

  /** The three pictures the button can show. */
  datatype Picture = Nerd | Thinking1 | Thinking2

  /** `PROCESSING_STATUSES.has(status)` */
  predicate IsProcessing(status: string) {
    status == "input" || status == "selection"
  }

  /** The status an `ai-processing` message sets: a string is kept as sent, anything else
      means the input flow when truthy and idle otherwise. */
  function StatusFrom(payload: JsValue): (status: string)
    ensures payload.Str? ==> status == payload.s
    ensures !payload.Str? ==> status == if Truthy(payload) then "input" else "idle"
    ensures !payload.Str? ==> (IsProcessing(status) <==> Truthy(payload))
  {
    if payload.Str? then payload.s
    else if Truthy(payload) then "input" else "idle"
  }

  /** `imageSrc` */
  function PictureFor(status: string): (p: Picture)
    ensures status == "selection" ==> p == Thinking2
    ensures status == "input" ==> p == Thinking1
  {
    if status == "selection" then Thinking2
    else if status == "input" then Thinking1
    else Nerd
  }

  /** `imageAlt` */
  function CaptionFor(status: string): (caption: string)
    ensures status == "selection" ==> caption == "AI processing selection"
    ensures status == "input" ==> caption == "AI processing input"
  {
    if status == "selection" then "AI processing selection"
    else if status == "input" then "AI processing input"
    else "AI ready"
  }

  /** The picture and the caption show "busy" exactly for the processing statuses. */
  lemma PictureMatchesProcessing(status: string)
    ensures IsProcessing(status) <==> PictureFor(status) != Nerd
    ensures IsProcessing(status) <==> CaptionFor(status) != "AI ready"
  {
  }

  /** The button's state: the status shown and the number of times it asked for the main
      window. */
  class Button {
    var status: string
    var mainWindowRequests: nat

    constructor ()
      ensures status == "idle" && mainWindowRequests == 0 && !IsProcessing(status)
    {
      status := "idle";
      mainWindowRequests := 0;
    }

    /** The `onAIProcessing` callback. */
    method OnAIProcessing(payload: JsValue)
      modifies this
      ensures status == StatusFrom(payload) && mainWindowRequests == old(mainWindowRequests)
    {
      if payload.Str? {
        status := payload.s;
      } else {
        status := if Truthy(payload) then "input" else "idle";
      }
    }

    /** `handleClick`: the main window is requested only while nothing is being processed. */
    method Click() returns (requested: bool)
      modifies this
      ensures requested <==> !IsProcessing(status)
      ensures mainWindowRequests == old(mainWindowRequests) + (if requested then 1 else 0)
      ensures status == old(status)
    {
      requested := !IsProcessing(status);
      if requested {
        mainWindowRequests := mainWindowRequests + 1;
      }
    }
  }
}
