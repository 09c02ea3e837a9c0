/** The selector window's keyboard and mouse state machine (`archive/src/selector-main.jsx`,
    and the same code in `src/selector-main.jsx`): the profiles shown, the token of the
    pending choice, the highlighted row, and the choices sent back to the main process. */
module SelectorWindow {
  import opened Wrappers
  import opened Text
  import opened Js
  import opened Sections
  import opened SelectorOverlay

  /** What one key press does. */
  datatype Effect = Nothing | Move(highlight: int) | Pick(index: int)

  /** `e.key >= '1' && e.key <= '9'`, compared as strings. */
  predicate IsDigitKey(key: string) {
    LexLe("1", key) && LexLe(key, "9")
  }

  /** The `keydown` handler on a list of `count` profiles with row `h` highlighted. */
  function KeyEffect(key: string, count: nat, h: int): (r: Effect)
    ensures key == "Escape" ==> r == Pick(-1)
    ensures key == "Enter" ==> r == Pick(h)
    ensures key == "ArrowDown" ==> r == Move(Min(h + 1, count - 1))
    ensures key == "ArrowUp" ==> r == Move(Max(h - 1, 0))
    ensures |key| == 1 && '1' <= key[0] <= '9' ==>
      r == if (key[0] as int) - ('1' as int) < count then Pick((key[0] as int) - ('1' as int)) else Nothing
  {
    DigitRange(key);
    ParseLeadingIntFacts(key);
    if IsDigitKey(key) then
      var idx := ParseLeadingInt(key) - 1;
      if idx < count then Pick(idx) else Nothing
    else if key == "ArrowDown" then Move(Min(h + 1, count - 1))
    else if key == "ArrowUp" then Move(Max(h - 1, 0))
    else if key == "Enter" then Pick(h)
    else if key == "Escape" then Pick(-1)
    else Nothing
  }

  /** Where the highlight can be: a row of a non-empty list; on an empty list the arrow
      keys move it between 0 and -1. */
  predicate HighlightOk(count: nat, h: int) {
    if count == 0 then -1 <= h <= 0 else 0 <= h < count
  }

  /** The arrow keys keep the highlight where it can be. */
  lemma MoveKeepsHighlight(key: string, count: nat, h: int)
    requires HighlightOk(count, h)
    ensures KeyEffect(key, count, h).Move? ==> HighlightOk(count, KeyEffect(key, count, h).highlight)
  {
    DigitRange(key);
  }

  /** A key picks a row of the list, or -1 for Escape; the one exception is Enter on an
      empty list, which picks the highlight, 0 or -1. */
  lemma PickedIndex(key: string, count: nat, h: int)
    requires HighlightOk(count, h)
    ensures var r := KeyEffect(key, count, h);
      r.Pick? ==> (0 <= r.index < count || (key == "Escape" && r.index == -1) || (key == "Enter" && count == 0 && -1 <= r.index <= 0))
  {
    DigitRange(key);
    ParseLeadingIntFacts(key);
  }

  /** A digit that names no row does nothing. */
  lemma DigitOutOfRange(key: string, count: nat, h: int)
    requires IsDigitKey(key) && ParseLeadingInt(key) > count
    ensures KeyEffect(key, count, h) == Nothing
  {
    DigitRange(key);
  }

  /** The `Selector` component's state. */
  class Selector {
    var profiles: seq<Profile>
    var token: JsValue
    var highlight: int
    /** The `chooseSelectorIndex(token, index)` calls made so far. */
    var sent: seq<(JsValue, int)>

    predicate Valid()
      reads this
    {
      HighlightOk(|profiles|, highlight)
    }

    /** The initial state: no profiles, an empty token, the first row highlighted. */
    constructor ()
      ensures profiles == [] && token == Str("") && highlight == 0 && sent == []
      ensures Valid()
    {
      profiles := [];
      token := Str("");
      highlight := 0;
      sent := [];
    }

    /** The `onSelectorData` listener: `profiles || []`, the token, highlight back to 0. */
    method SetData(ps: Option<seq<Profile>>, t: JsValue)
      modifies this
      ensures profiles == ps.GetOr([]) && token == t && highlight == 0 && sent == old(sent)
      ensures Valid()
    {
      profiles := ps.GetOr([]);
      token := t;
      highlight := 0;
    }

    /** `choose(index)`: nothing without a token. */
    method Choose(index: int)
      modifies this
      ensures sent == old(sent) + (if Truthy(token) then [(token, index)] else [])
      ensures profiles == old(profiles) && token == old(token) && highlight == old(highlight)
    {
      if !Truthy(token) {
        return;
      }
      sent := sent + [(token, index)];
    }

    /** The `keydown` handler. */
    method OnKey(key: string)
      requires Valid()
      modifies this
      ensures Valid()
      ensures profiles == old(profiles) && token == old(token)
      ensures match KeyEffect(key, |old(profiles)|, old(highlight))
        case Nothing => highlight == old(highlight) && sent == old(sent)
        case Move(h) => highlight == h && sent == old(sent)
        case Pick(i) => highlight == old(highlight) && sent == old(sent) + (if Truthy(token) then [(token, i)] else [])
    {
      MoveKeepsHighlight(key, |profiles|, highlight);
      DigitRange(key);
      if IsDigitKey(key) {
        var idx := ParseLeadingInt(key) - 1;
        if idx < |profiles| {
          Choose(idx);
        }
      } else if key == "ArrowDown" {
        highlight := Min(highlight + 1, |profiles| - 1);
      } else if key == "ArrowUp" {
        highlight := Max(highlight - 1, 0);
      } else if key == "Enter" {
        Choose(highlight);
      } else if key == "Escape" {
        Choose(-1);
      }
    }

    /** `onMouseEnter` on row `i`. */
    method Hover(i: nat)
      requires i < |profiles|
      modifies this
      ensures highlight == i && profiles == old(profiles) && token == old(token) && sent == old(sent)
      ensures Valid()
    {
      highlight := i;
    }

    /** `onClick` on row `i`. */
    method Click(i: nat)
      requires i < |profiles|
      modifies this
      ensures sent == old(sent) + (if Truthy(token) then [(token, i as int)] else [])
      ensures profiles == old(profiles) && token == old(token) && highlight == old(highlight)
    {
      Choose(i);
    }
  }
}
