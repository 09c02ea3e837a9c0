/** `showResultDialog`: the dialog's size from the result's line count and longest line,
    its placement, and the escaping of the result text embedded in the dialog's markup. */
module ResultDialog {
  import opened Wrappers
  import opened Text
  import opened Effects
  import opened SelectorOverlay

  const MinWidth := 320
  const MaxWidth := 900
  const MinHeight := 120
  const MaxHeight := 600
  const CharWidth := 12
  const LineHeight := 32

  /** `Math.max(...lines.map(l => l.length))` over a non-empty list of lines. */
  function LongestLine(lines: seq<string>): (n: nat)
    requires |lines| >= 1
    ensures forall i :: 0 <= i < |lines| ==> |lines[i]| <= n
    ensures exists i :: 0 <= i < |lines| && |lines[i]| == n
  {
    if |lines| == 1 then |lines[0]|
    else
      var rest := LongestLine(lines[1..]);
      assert forall i :: 1 <= i < |lines| ==> lines[i] == lines[1..][i - 1];
      if |lines[0]| >= rest then |lines[0]| else rest
  }

  /** Width: 12 per character of the longest line plus 50, kept within [320, 900]; every
      line that fits the largest width fits the dialog. */
  function DialogWidth(text: string): (w: int)
    ensures MinWidth <= w <= MaxWidth
    ensures forall l :: l in Split(text, '\n') && |l| * CharWidth + 50 <= MaxWidth ==> |l| * CharWidth + 50 <= w
  {
    Min(MaxWidth, Max(MinWidth, LongestLine(Split(text, '\n')) * CharWidth + 50))
  }

  /** Height: 32 per line plus 70, kept within [120, 600]; a result of up to 16 lines gets
      room for all of them. */
  function DialogHeight(text: string): (h: int)
    ensures MinHeight <= h <= MaxHeight
    ensures |Split(text, '\n')| * LineHeight + 70 <= MaxHeight ==> |Split(text, '\n')| * LineHeight + 70 <= h
  {
    Min(MaxHeight, Max(MinHeight, |Split(text, '\n')| * LineHeight + 70))
  }

  function DialogBounds(text: string, cursor: Point, display: Option<Display>): (r: Rect)
    ensures r.width == DialogWidth(text) && r.height == DialogHeight(text)
  {
    var w := DialogWidth(text);
    var h := DialogHeight(text);
    var p := Place(cursor, WorkArea(display, w, h), w, h);
    Rect(p.x, p.y, w, h)
  }

  /** `s.replace(/c/g, r)` for a single character. */
  function ReplaceAll(s: string, c: char, r: string): (t: string)
    ensures c !in r ==> c !in t
    ensures forall d :: d in t && d !in r ==> d in s
  {
    if s == [] then []
    else (if s[0] == c then r else [s[0]]) + ReplaceAll(s[1..], c, r)
  }

  /** The escaping as written: `<` and `>` become entities, `&` is left alone. */
  function EscapeAngles(s: string): (t: string)
    ensures '<' !in t && '>' !in t
  {
    ReplaceAll(ReplaceAll(s, '<', "&lt;"), '>', "&gt;")
  }

  /** The text a browser shows for markup text content, as far as the three character
      references the escaping produces are concerned. */
  function DecodeText(h: string): string
    decreases |h|
  {
    if h == [] then []
    else if |h| >= 4 && h[..4] == "&lt;" then "<" + DecodeText(h[4..])
    else if |h| >= 4 && h[..4] == "&gt;" then ">" + DecodeText(h[4..])
    else if |h| >= 5 && h[..5] == "&amp;" then "&" + DecodeText(h[5..])
    else [h[0]] + DecodeText(h[1..])
  }

  /** A result that itself contains the text `&lt;` is shown as `<`: the dialog does not
      display the result it was given. */
  lemma EscapeAnglesMisrendersEntity()
    ensures DecodeText(EscapeAngles("&lt;")) == "<"
    ensures DecodeText(EscapeAngles("&lt;")) != "&lt;"
  {
    assert ReplaceAll("&lt;", '<', "&lt;") == "&lt;";
    assert ReplaceAll("&lt;", '>', "&gt;") == "&lt;";
    assert DecodeText("&lt;") == "<" + DecodeText([]);
  }

  function EscapeChar(c: char): string {
    if c == '&' then "&amp;" else if c == '<' then "&lt;" else if c == '>' then "&gt;" else [c]
  }

  /** The escaping the dialog needs: `&` as well as `<` and `>`. */
  function EscapeMarkup(s: string): (t: string)
    ensures '<' !in t && '>' !in t
  {
    if s == [] then [] else EscapeChar(s[0]) + EscapeMarkup(s[1..])
  }

  lemma DecodeEscapedChar(c: char, rest: string)
    ensures DecodeText(EscapeChar(c) + rest) == [c] + DecodeText(rest)
  {
    var h := EscapeChar(c) + rest;
    if c == '&' {
      assert h[1] == 'a';
      assert h[..4] != "&lt;" && h[..4] != "&gt;";
      assert h[..5] == "&amp;" && h[5..] == rest;
    } else if c == '<' {
      assert h[..4] == "&lt;" && h[4..] == rest;
    } else if c == '>' {
      assert h[1] == 'g';
      assert h[..4] != "&lt;";
      assert h[..4] == "&gt;" && h[4..] == rest;
    } else {
      assert h[0] == c && h[1..] == rest;
      assert |h| >= 4 ==> h[..4][0] == c;
      assert |h| >= 5 ==> h[..5][0] == c;
    }
  }

  lemma {:induction false} ReplaceAllAppend(a: string, b: string, c: char, r: string)
    ensures ReplaceAll(a + b, c, r) == ReplaceAll(a, c, r) + ReplaceAll(b, c, r)
  {
    if a == [] {
      assert a + b == b;
    } else {
      assert (a + b)[0] == a[0] && (a + b)[1..] == a[1..] + b;
      ReplaceAllAppend(a[1..], b, c, r);
    }
  }

  /** On a text without `&` the escaping as written is the corrected one: the two differ only
      for results that contain `&`. */
  lemma {:induction false} EscapeAnglesAgrees(s: string)
    requires '&' !in s
    ensures EscapeAngles(s) == EscapeMarkup(s)
  {
    if s != [] {
      var c := s[0];
      var lt := ReplaceAll([c], '<', "&lt;");
      assert s == [c] + s[1..];
      ReplaceAllAppend([c], s[1..], '<', "&lt;");
      ReplaceAllAppend(lt, ReplaceAll(s[1..], '<', "&lt;"), '>', "&gt;");
      EscapeAnglesAgrees(s[1..]);
      if c == '<' {
        assert lt == "&lt;";
        assert ReplaceAll("&lt;", '>', "&gt;") == "&lt;";
      } else if c == '>' {
        assert lt == [c];
        assert ReplaceAll([c], '>', "&gt;") == "&gt;";
      } else {
        assert lt == [c];
        assert ReplaceAll([c], '>', "&gt;") == [c];
      }
    }
  }

  /** The dialog shows exactly the result it was given. */
  lemma {:induction false} EscapeMarkupShowsText(s: string)
    ensures DecodeText(EscapeMarkup(s)) == s
  {
    if s != [] {
      EscapeMarkupShowsText(s[1..]);
      DecodeEscapedChar(s[0], EscapeMarkup(s[1..]));
      assert [s[0]] + s[1..] == s;
    }
  }
}
