/** The pure parts of `showSelectorOverlay`: the window size, its placement clamped to the
    display's work area, the Escape and digit shortcuts it registers, and which event settles
    the choice. The same placement arithmetic serves the result dialog. */
module SelectorOverlay {
  import opened Wrappers
  import opened Text
  import opened Effects

  function Min(a: int, b: int): int { if a <= b then a else b }
  function Max(a: int, b: int): int { if a >= b then a else b }

  const SelectorWidth := 260
  const RowHeight := 38
  const SelectorPadding := 16
  const MaxRows := 9

  /** `Math.min(9, profiles.length || 1) * 38 + 16` */
  function SelectorHeight(count: nat): (h: int)
    ensures RowHeight + SelectorPadding <= h <= MaxRows * RowHeight + SelectorPadding
    ensures count >= 1 ==> h == Min(MaxRows, count) * RowHeight + SelectorPadding
  {
    Min(MaxRows, if count == 0 then 1 else count) * RowHeight + SelectorPadding
  }

  /** The display nearest the cursor, as far as the placement reads it; an absent rectangle
      is a missing (falsy) property. */
  datatype Display = Display(workArea: Option<Rect>, bounds: Option<Rect>)

  /** `v || fallback` on a number. */
  function OrElse(v: int, fallback: int): int {
    if v != 0 then v else fallback
  }

  /** `area` takes the origin of `r` and its extents, a zero extent being replaced by the
      window's own. */
  predicate DefaultedFrom(r: Rect, area: Rect, width: int, height: int) {
    && area.x == r.x && area.y == r.y
    && (r.width != 0 ==> area.width == r.width) && (r.width == 0 ==> area.width == width)
    && (r.height != 0 ==> area.height == r.height) && (r.height == 0 ==> area.height == height)
  }

  /** The work area the placement clamps to: the display's work area, else its bounds, with
      every zero or missing coordinate defaulted (0 for the origin, the window's own size
      for the extent). */
  function WorkArea(display: Option<Display>, width: int, height: int): (area: Rect)
    ensures area.width == 0 ==> width == 0
    ensures area.height == 0 ==> height == 0
    ensures display.Some? && display.value.workArea.Some? ==>
      DefaultedFrom(display.value.workArea.value, area, width, height)
    ensures display.Some? && display.value.workArea.None? && display.value.bounds.Some? ==>
      DefaultedFrom(display.value.bounds.value, area, width, height)
    ensures display.None? || (display.value.workArea.None? && display.value.bounds.None?) ==>
      area == Rect(0, 0, width, height)
  {
    var raw :=
      if display.Some? && display.value.workArea.Some? then display.value.workArea.value
      else
        var b := if display.Some? then display.value.bounds else None;
        if b.Some? then Rect(b.value.x, b.value.y, OrElse(b.value.width, width), OrElse(b.value.height, height))
        else Rect(0, 0, width, height);
    Rect(raw.x, raw.y, OrElse(raw.width, width), OrElse(raw.height, height))
  }

  /** The window's top-left corner: centred on the cursor, then moved into the work area. */
  function Place(cursor: Point, area: Rect, width: int, height: int): (p: Point)
    requires width > 0 && height > 0
    ensures p.x >= area.x
    ensures area.width >= width ==> p.x + width <= area.x + area.width
    ensures p.y >= area.y
    ensures area.height >= height ==> p.y + height <= area.y + area.height
    ensures area.x <= cursor.x - width / 2 <= area.x + area.width - width ==> p.x == cursor.x - width / 2
    ensures area.y <= cursor.y - height / 2 <= area.y + area.height - height ==> p.y == cursor.y - height / 2
  {
    var x := Max(area.x, Min(cursor.x - width / 2, area.x + area.width - width));
    var y0 := cursor.y - height / 2;
    var y1 := if y0 < area.y then area.y else y0;
    var y := if y1 + height > area.y + area.height then Max(area.y, area.y + area.height - height) else y1;
    Point(x, y)
  }

  function SelectorBounds(count: nat, cursor: Point, display: Option<Display>): (r: Rect)
    ensures r.width == SelectorWidth && r.height == SelectorHeight(count)
  {
    var h := SelectorHeight(count);
    var p := Place(cursor, WorkArea(display, SelectorWidth, h), SelectorWidth, h);
    Rect(p.x, p.y, SelectorWidth, h)
  }

  /** A selector shortcut and the index it resolves the choice with. */
  datatype Binding = Binding(accelerator: string, index: int)

  /** The shortcuts the overlay asks for: Escape for -1, then the digits 1..min(9, count). */
  function SelectorBindings(count: nat): (bs: seq<Binding>)
    ensures |bs| == 1 + Min(MaxRows, count)
    ensures bs[0] == Binding("Escape", -1)
    ensures forall i :: 1 <= i < |bs| ==> bs[i] == Binding(Dec(i), i - 1)
  {
    [Binding("Escape", -1)] + seq(Min(MaxRows, count), i requires 0 <= i < Min(MaxRows, count) => Binding(Dec(i + 1), i))
  }

  function Accelerators(bs: seq<Binding>): (r: seq<string>)
    ensures |r| == |bs| && forall i :: 0 <= i < |bs| ==> r[i] == bs[i].accelerator
  {
    seq(|bs|, i requires 0 <= i < |bs| => bs[i].accelerator)
  }

  predicate DistinctAccelerators(bs: seq<Binding>) {
    forall i, j :: 0 <= i < j < |bs| ==> bs[i].accelerator != bs[j].accelerator
  }

  /** The bindings whose registration succeeds, in order, when the accelerators in `held`
      are already taken: a later binding whose accelerator was just registered is refused too. */
  function Registerable(bs: seq<Binding>, held: set<string>): (r: seq<Binding>)
    ensures forall b :: b in r ==> b in bs && b.accelerator !in held
    ensures DistinctAccelerators(r)
  {
    if bs == [] then []
    else
      var init := Registerable(bs[..|bs| - 1], held);
      var b := bs[|bs| - 1];
      if b.accelerator in held || b.accelerator in Accelerators(init) then init
      else
        assert forall i :: 0 <= i < |init| ==> init[i].accelerator != b.accelerator by {
          forall i | 0 <= i < |init| ensures init[i].accelerator != b.accelerator {
            assert Accelerators(init)[i] == init[i].accelerator;
          }
        }
        init + [b]
  }

  /** Every binding whose accelerator is free gets registered under that accelerator. */
  lemma {:induction false} RegisterableCovers(bs: seq<Binding>, held: set<string>, b: Binding)
    requires b in bs && b.accelerator !in held
    ensures exists c :: c in Registerable(bs, held) && c.accelerator == b.accelerator
  {
    var init := Registerable(bs[..|bs| - 1], held);
    var last := bs[|bs| - 1];
    if b in bs[..|bs| - 1] {
      RegisterableCovers(bs[..|bs| - 1], held, b);
      var c :| c in init && c.accelerator == b.accelerator;
      assert c in Registerable(bs, held);
    } else {
      assert b == last;
      if last.accelerator in Accelerators(init) {
        var i :| 0 <= i < |init| && Accelerators(init)[i] == last.accelerator;
        assert init[i] in Registerable(bs, held);
      } else {
        assert b in Registerable(bs, held);
      }
    }
  }

  lemma SelectorBindingsDistinct(count: nat)
    ensures DistinctAccelerators(SelectorBindings(count))
  {
    var bs := SelectorBindings(count);
    forall i, j | 0 <= i < j < |bs| ensures bs[i].accelerator != bs[j].accelerator {
      assert bs[j] == Binding(Dec(j), j - 1);
      if i == 0 {
        assert IsDigit(bs[j].accelerator[0]);
      } else {
        assert bs[i] == Binding(Dec(i), i - 1);
        DecInjective(i, j);
      }
    }
  }

  /** The index of the first binding for an accelerator. */
  function Lookup(bs: seq<Binding>, accelerator: string): (r: Option<int>)
    ensures r.None? <==> forall b :: b in bs ==> b.accelerator != accelerator
    ensures r.Some? ==> Binding(accelerator, r.value) in bs
  {
    if bs == [] then None
    else if bs[0].accelerator == accelerator then Some(bs[0].index)
    else Lookup(bs[1..], accelerator)
  }

  lemma {:induction false} LookupDistinct(bs: seq<Binding>, b: Binding)
    requires DistinctAccelerators(bs) && b in bs
    ensures Lookup(bs, b.accelerator) == Some(b.index)
  {
    if bs[0] != b {
      assert b in bs[1..];
      assert DistinctAccelerators(bs[1..]) by {
        forall i, j | 0 <= i < j < |bs| - 1 ensures bs[1..][i].accelerator != bs[1..][j].accelerator {
          assert bs[1..][i] == bs[i + 1] && bs[1..][j] == bs[j + 1];
        }
      }
      LookupDistinct(bs[1..], b);
    }
  }

  /** What reaches the overlay while it is open: a global shortcut press, the selector page's
      choice message, or the window closing. */
  datatype OverlayEvent = KeyPressed(accelerator: string) | ChoiceMessage(index: int) | WindowClosed

  /** How the overlay's promise settles. */
  datatype Resolution = Unresolved | ByKey(index: int) | ByMessage(index: int) | ByClose

  /** The first event that settles the choice; presses of keys the overlay did not register
      go elsewhere. */
  function Resolve(active: seq<Binding>, evs: seq<OverlayEvent>): Resolution {
    if evs == [] then Unresolved
    else
      match evs[0]
      case KeyPressed(a) =>
        (match Lookup(active, a)
         case Some(i) => ByKey(i)
         case None => Resolve(active, evs[1..]))
      case ChoiceMessage(i) => ByMessage(i)
      case WindowClosed => ByClose
  }

  /** Only the first resolution counts: events after it change nothing. */
  lemma {:induction false} ResolveFirstWins(active: seq<Binding>, evs: seq<OverlayEvent>, later: seq<OverlayEvent>)
    requires Resolve(active, evs) != Unresolved
    ensures Resolve(active, evs + later) == Resolve(active, evs)
  {
    assert (evs + later)[0] == evs[0];
    if evs[0].KeyPressed? && Lookup(active, evs[0].accelerator).None? {
      assert (evs + later)[1..] == evs[1..] + later;
      ResolveFirstWins(active, evs[1..], later);
    }
  }

  /** The choice the overlay resolves with, `null` being None. */
  function ChoiceOf(r: Resolution): Option<int>
    requires r != Unresolved
  {
    match r
    case ByKey(i) => Some(i)
    case ByMessage(i) => Some(i)
    case ByClose => None
  }

  /** With the overlay's own shortcuts registered, Escape resolves -1 and digit d (for
      1 <= d <= min(9, count)) resolves d - 1, each provided its accelerator was free. */
  lemma SelectorKeysResolve(count: nat, held: set<string>, d: nat, later: seq<OverlayEvent>)
    ensures "Escape" !in held ==>
      Resolve(Registerable(SelectorBindings(count), held), [KeyPressed("Escape")] + later) == ByKey(-1)
    ensures 1 <= d <= Min(MaxRows, count) && Dec(d) !in held ==>
      Resolve(Registerable(SelectorBindings(count), held), [KeyPressed(Dec(d))] + later) == ByKey(d - 1)
  {
    var bs := SelectorBindings(count);
    var active := Registerable(bs, held);
    SelectorBindingsDistinct(count);
    if "Escape" !in held {
      BindingResolves(bs, held, 0, later);
    }
    if 1 <= d <= Min(MaxRows, count) && Dec(d) !in held {
      assert bs[d] == Binding(Dec(d), d - 1);
      BindingResolves(bs, held, d, later);
    }
  }

  lemma BindingResolves(bs: seq<Binding>, held: set<string>, i: nat, later: seq<OverlayEvent>)
    requires DistinctAccelerators(bs) && i < |bs| && bs[i].accelerator !in held
    ensures Resolve(Registerable(bs, held), [KeyPressed(bs[i].accelerator)] + later) == ByKey(bs[i].index)
  {
    var active := Registerable(bs, held);
    RegisterableCovers(bs, held, bs[i]);
    var c :| c in active && c.accelerator == bs[i].accelerator;
    var j :| 0 <= j < |bs| && bs[j] == c;
    assert c == bs[i];
    LookupDistinct(active, c);
  }

  /** A digit beyond the listed presets is not one of the overlay's shortcuts and is ignored. */
  lemma OutOfRangeDigitIgnored(count: nat, held: set<string>, d: nat, later: seq<OverlayEvent>)
    requires Min(MaxRows, count) < d <= MaxRows
    ensures Resolve(Registerable(SelectorBindings(count), held), [KeyPressed(Dec(d))] + later)
         == Resolve(Registerable(SelectorBindings(count), held), later)
  {
    var active := Registerable(SelectorBindings(count), held);
    DigitBeyondListUnbound(count, d);
    assert Lookup(active, Dec(d)).None?;
    assert ([KeyPressed(Dec(d))] + later)[1..] == later;
  }

  lemma DigitBeyondListUnbound(count: nat, d: nat)
    requires Min(MaxRows, count) < d <= MaxRows
    ensures forall b :: b in SelectorBindings(count) ==> b.accelerator != Dec(d)
  {
    var bs := SelectorBindings(count);
    forall b | b in bs ensures b.accelerator != Dec(d) {
      var j :| 0 <= j < |bs| && bs[j] == b;
      if j > 0 {
        assert bs[j] == Binding(Dec(j), j - 1);
        DecInjective(j, d);
      } else {
        assert IsDigit(Dec(d)[0]);
      }
    }
  }
}
