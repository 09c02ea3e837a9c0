/** `copySelectionText`: clear the clipboard, send the copy keystroke, then read the clipboard
    until it holds non-blank text, at most eight more times, repeating the copy keystroke
    before the fifth read. Delays are plain steps; each clipboard read is an oracle outcome. */
module Capture {
  import opened Text
  import opened Effects

  datatype ReadOutcome = Got(text: string) | ReadFails

  /** The k-th clipboard read of a capture (from 0); reads the script does not cover see an
      empty clipboard. */
  function ReadAt(script: seq<ReadOutcome>, k: nat): ReadOutcome {
    if k < |script| then script[k] else Got("")
  }

  const MaxRetries := 8
  /** The retry before which the copy keystroke is sent again. */
  const RecopyAttempt := 3

  /** What a capture returns, how many times it read the clipboard and whether a read threw. */
  datatype Outcome = Outcome(text: string, readCount: nat, threw: bool)

  /** The retry loop entered with `attempts` retries done and `text` last read. */
  function ScanFrom(script: seq<ReadOutcome>, attempts: nat, text: string): Outcome
    requires attempts <= MaxRetries
    decreases MaxRetries - attempts
  {
    if !IsBlank(text) || attempts == MaxRetries then Outcome(text, attempts + 1, false)
    else
      match ReadAt(script, attempts + 1)
      case ReadFails => Outcome("", attempts + 2, true)
      case Got(t) => ScanFrom(script, attempts + 1, t)
  }

  function CaptureRun(script: seq<ReadOutcome>): Outcome {
    match ReadAt(script, 0)
    case ReadFails => Outcome("", 1, true)
    case Got(t) => ScanFrom(script, 0, t)
  }

  predicate BlankRead(r: ReadOutcome) {
    r.Got? && IsBlank(r.text)
  }

  /** What every capture outcome satisfies: the reads before the last were blank strings;
      the last one threw (and the text is "") or returned the text, which is non-blank unless
      all retries were used. */
  predicate Explains(script: seq<ReadOutcome>, c: Outcome) {
    && 1 <= c.readCount <= MaxRetries + 1
    && (forall k :: 0 <= k < c.readCount - 1 ==> BlankRead(ReadAt(script, k)))
    && (c.threw ==> ReadAt(script, c.readCount - 1) == ReadFails && c.text == "")
    && (!c.threw ==> ReadAt(script, c.readCount - 1) == Got(c.text)
                     && (!IsBlank(c.text) || c.readCount == MaxRetries + 1))
  }

  lemma {:induction false} ScanFromShape(script: seq<ReadOutcome>, attempts: nat, text: string)
    requires attempts <= MaxRetries
    requires ReadAt(script, attempts) == Got(text)
    requires forall k :: 0 <= k < attempts ==> BlankRead(ReadAt(script, k))
    ensures ScanFrom(script, attempts, text).readCount >= attempts + 1
    ensures Explains(script, ScanFrom(script, attempts, text))
    decreases MaxRetries - attempts
  {
    var c := ScanFrom(script, attempts, text);
    if !IsBlank(text) || attempts == MaxRetries {
      assert c == Outcome(text, attempts + 1, false);
    } else {
      assert BlankRead(ReadAt(script, attempts));
      match ReadAt(script, attempts + 1)
      case ReadFails =>
        assert c == Outcome("", attempts + 2, true);
      case Got(t) =>
        assert c == ScanFrom(script, attempts + 1, t);
        ScanFromShape(script, attempts + 1, t);
    }
  }

  /** A capture reads the clipboard between one and nine times; every read but the last was
      blank; the last either threw (and the capture returns "") or returned the capture's text,
      which is non-blank unless all nine reads were used. */
  lemma CaptureShape(script: seq<ReadOutcome>)
    ensures Explains(script, CaptureRun(script))
  {
    if ReadAt(script, 0).Got? {
      ScanFromShape(script, 0, ReadAt(script, 0).text);
    }
  }

  /** The first non-blank read wins: when read k is the first that is not a blank string
      (k < 9), the capture stops there and returns that read's text, or "" if it threw. */
  lemma CaptureFirstNonBlank(script: seq<ReadOutcome>, k: nat)
    requires k <= MaxRetries
    requires forall j :: 0 <= j < k ==> BlankRead(ReadAt(script, j))
    requires !BlankRead(ReadAt(script, k))
    ensures CaptureRun(script).readCount == k + 1
    ensures CaptureRun(script).text == (if ReadAt(script, k).Got? then ReadAt(script, k).text else "")
  {
    CaptureShape(script);
  }

  /** The copy keystroke is repeated exactly when the first four reads were blank strings,
      which is exactly when more than four reads happen. */
  lemma RecopyIffFourBlankReads(script: seq<ReadOutcome>)
    ensures CaptureRun(script).readCount > RecopyAttempt + 1 <==>
      forall k :: 0 <= k <= RecopyAttempt ==> BlankRead(ReadAt(script, k))
  {
    CaptureShape(script);
  }

  function Reads(n: nat): (evs: seq<Event>)
    ensures |evs| == n && forall i :: 0 <= i < n ==> evs[i] == ClipboardRead
  {
    seq(n, _ => ClipboardRead)
  }

  /** The effects of a capture that has read the clipboard n times: the clipboard is cleared,
      the copy keystroke sent, and the reads follow, with a second copy keystroke after the
      fourth. */
  function CaptureEvents(n: nat): seq<Event> {
    if n <= RecopyAttempt + 1 then [ClipboardWritten(""), KeysSent("^c")] + Reads(n)
    else [ClipboardWritten(""), KeysSent("^c")] + Reads(RecopyAttempt + 1) + [KeysSent("^c")] + Reads(n - RecopyAttempt - 1)
  }

  lemma {:induction false} ReadsCount(n: nat)
    ensures multiset(Reads(n))[ClipboardRead] == n
    ensures multiset(Reads(n))[KeysSent("^c")] == 0
  {
    if n > 0 {
      assert Reads(n) == Reads(n - 1) + [ClipboardRead];
      ReadsCount(n - 1);
    }
  }

  /** The clipboard is cleared before anything else, the copy keystroke is sent once or twice
      (twice only past four reads), and the log holds exactly `n` reads. */
  lemma CaptureEventsCount(n: nat)
    ensures CaptureEvents(n)[0] == ClipboardWritten("")
    ensures CaptureEvents(n)[1] == KeysSent("^c")
    ensures multiset(CaptureEvents(n))[ClipboardRead] == n
    ensures multiset(CaptureEvents(n))[KeysSent("^c")] == if n > RecopyAttempt + 1 then 2 else 1
  {
    var head := [ClipboardWritten(""), KeysSent("^c")];
    if n > RecopyAttempt + 1 {
      ReadsCount(RecopyAttempt + 1);
      ReadsCount(n - RecopyAttempt - 1);
      assert multiset(CaptureEvents(n))
        == multiset(head) + multiset(Reads(RecopyAttempt + 1)) + multiset([KeysSent("^c")]) + multiset(Reads(n - RecopyAttempt - 1));
    } else {
      ReadsCount(n);
      assert multiset(CaptureEvents(n)) == multiset(head) + multiset(Reads(n));
    }
  }

  /** One more read extends the effects by that read, preceded by the second copy keystroke
      when it is the fifth read. */
  lemma CaptureEventsStep(n: nat)
    requires n >= 1
    ensures CaptureEvents(n + 1)
      == CaptureEvents(n) + (if n == RecopyAttempt + 1 then [KeysSent("^c")] else []) + [ClipboardRead]
  {
    assert Reads(n + 1) == Reads(n) + [ClipboardRead];
    if n > RecopyAttempt + 1 {
      assert Reads(n - RecopyAttempt) == Reads(n - RecopyAttempt - 1) + [ClipboardRead];
    }
  }
}
