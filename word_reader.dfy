/** The line accumulator `ReadWord`: characters from the serial port are stored in a
    16-slot buffer until a carriage return ends the word, which is then read as a
    decimal number with `atoi` and cast to `uint16_t`. */
module WordReader {
  import opened Common

  /** `data_length`: the slots of the buffer. */
  const DataLength: nat := 16

  /** `endMarker`: the carriage return that ends a word. */
  const EndMarker: char := '\r'

  /** The string terminator written over the slot at the index. */
  const Nul: char := '\0'

  predicate IsDigit(c: char) { '0' <= c <= '9' }

  predicate IsDigits(s: seq<char>) { forall i :: 0 <= i < |s| ==> IsDigit(s[i]) }

  /** The longest prefix of s made of decimal digits. */
  function LeadingDigits(s: seq<char>): (d: seq<char>)
    ensures d <= s && IsDigits(d)
    ensures |d| < |s| ==> !IsDigit(s[|d|])
  {
    if |s| == 0 || !IsDigit(s[0]) then [] else [s[0]] + LeadingDigits(s[1..])
  }

  /** The number a string of decimal digits denotes, most significant digit first. */
  function DecimalValue(d: seq<char>): nat
    requires IsDigits(d)
  {
    if |d| == 0 then 0
    else DecimalValue(d[..|d| - 1]) * 10 + (d[|d| - 1] as int - '0' as int)
  }

  /** `atoi` on a string that starts with its digits: the value of its leading digit run.
      Signs, leading white space and `int` overflow are not modelled. */
  function Atoi(s: seq<char>): nat
  {
    DecimalValue(LeadingDigits(s))
  }

  /** `atoi` stops at the first character that is not a digit. */
  lemma {:induction false} AtoiStopsAtNonDigit(w: seq<char>, c: char, t: seq<char>)
    requires !IsDigit(c)
    ensures Atoi(w + [c] + t) == Atoi(w)
  {
    assert LeadingDigits(w + [c] + t) == LeadingDigits(w) by {
      LeadingDigitsStop(w, c, t);
    }
  }

  lemma {:induction false} LeadingDigitsStop(w: seq<char>, c: char, t: seq<char>)
    requires !IsDigit(c)
    ensures LeadingDigits(w + [c] + t) == LeadingDigits(w)
    decreases |w|
  {
    var s := w + [c] + t;
    if |w| == 0 {
      assert s[0] == c;
    } else if !IsDigit(w[0]) {
      assert s[0] == w[0];
    } else {
      assert s[0] == w[0];
      assert s[1..] == w[1..] + [c] + t;
      LeadingDigitsStop(w[1..], c, t);
    }
  }

  /** The state `ReadWord` keeps between calls: the buffer, the static index `ix`
      and the global `new_word` flag. */
  datatype ReaderState = ReaderState(buf: seq<char>, ix: nat, newWord: bool)

  /** The index always addresses a slot of the 16-slot buffer. */
  predicate Wf(r: ReaderState)
  {
    |r.buf| == DataLength && r.ix < DataLength
  }

  /** One character read from the serial port: any character but the end marker is
      stored at `ix`, which then advances and is clamped to the last slot; the end
      marker terminates the string at `ix`, resets `ix` and raises `new_word`. */
  function Step(r: ReaderState, c: char): (r': ReaderState)
    requires Wf(r)
    ensures Wf(r')
  {
    if c != EndMarker then
      var ix := if r.ix + 1 >= DataLength then DataLength - 1 else r.ix + 1;
      ReaderState(r.buf[r.ix := c], ix, r.newWord)
    else
      ReaderState(r.buf[r.ix := Nul], 0, true)
  }

  /** The loop of one `ReadWord` call: it reads while characters are available and
      no word is ready; it returns the new state and the characters left unread. */
  function Feed(r: ReaderState, input: seq<char>): (res: (ReaderState, seq<char>))
    requires Wf(r)
    ensures Wf(res.0)
    ensures |res.1| <= |input| && res.1 == input[|input| - |res.1|..]
    ensures res.0.newWord || res.1 == []
    ensures r.newWord ==> res == (r, input)
    decreases |input|
  {
    if |input| == 0 || r.newWord then (r, input)
    else Feed(Step(r, input[0]), input[1..])
  }

  /** The position of the first end marker in s. */
  function TerminatorIndex(s: seq<char>): (i: nat)
    requires EndMarker in s
    ensures i < |s| && s[i] == EndMarker && EndMarker !in s[..i]
  {
    if s[0] == EndMarker then 0
    else
      var i := 1 + TerminatorIndex(s[1..]);
      assert s[..i] == [s[0]] + s[1..][..i - 1];
      i
  }

  /** The characters typed before the first end marker. */
  function FirstWord(s: seq<char>): seq<char>
    requires EndMarker in s
  {
    s[..TerminatorIndex(s)]
  }

  /** The characters typed after the first end marker. */
  function AfterWord(s: seq<char>): seq<char>
    requires EndMarker in s
  {
    s[TerminatorIndex(s) + 1..]
  }

  /** What the console takes a typed word w to mean: the first 15 characters read by
      `atoi` and cast to `uint16_t`. */
  function WordValue(w: seq<char>): U16
  {
    ToU16(Atoi(w[..Min(|w|, DataLength - 1)]))
  }

  /** Feeding the characters of w and then the end marker to a reader that already
      holds the characters t: the buffer ends up holding the first min(|t + w|, 15)
      characters of t + w followed by the terminator, and the rest is left unread. */
  lemma {:induction false} FeedWord(r: ReaderState, t: seq<char>, w: seq<char>, rest: seq<char>)
    requires Wf(r) && !r.newWord && EndMarker !in w
    requires r.ix == Min(|t|, DataLength - 1) && r.buf[..r.ix] == t[..r.ix]
    ensures var (r', rest') := Feed(r, w + [EndMarker] + rest);
            var k := Min(|t| + |w|, DataLength - 1);
            rest' == rest && r'.newWord && r'.ix == 0
            && r'.buf[..k] == (t + w)[..k] && r'.buf[k] == Nul
    decreases |w|
  {
    var input := w + [EndMarker] + rest;
    if |w| == 0 {
      assert input == [EndMarker] + rest;
      assert input[1..] == rest;
      var r1 := Step(r, EndMarker);
      assert Feed(r, input) == Feed(r1, rest) == (r1, rest);
      assert r1.buf[..r.ix] == r.buf[..r.ix];
      assert t + w == t;
    } else {
      var c := w[0];
      assert input[0] == c && input[1..] == w[1..] + [EndMarker] + rest;
      var r1 := Step(r, c);
      assert Feed(r, input) == Feed(r1, w[1..] + [EndMarker] + rest);
      StepKeepsPrefix(r, t, c);
      FeedWord(r1, t + [c], w[1..], rest);
      assert t + [c] + w[1..] == t + w;
    }
  }

  /** Storing a character that is not the end marker keeps the buffer's prefix equal to
      what was typed, up to the clamped index. */
  lemma StepKeepsPrefix(r: ReaderState, t: seq<char>, c: char)
    requires Wf(r) && c != EndMarker
    requires r.ix == Min(|t|, DataLength - 1) && r.buf[..r.ix] == t[..r.ix]
    ensures var r1 := Step(r, c); var t1 := t + [c];
            r1.newWord == r.newWord
            && r1.ix == Min(|t1|, DataLength - 1) && r1.buf[..r1.ix] == t1[..r1.ix]
  {
    var r1 := Step(r, c);
    var t1 := t + [c];
    if r.ix < DataLength - 1 {
      assert r.ix == |t|;
      assert r1.buf[..r1.ix] == r.buf[..r.ix] + [c];
      assert t1[..r1.ix] == t1;
    } else {
      assert r1.ix == r.ix;
      assert r1.buf[..r1.ix] == r.buf[..r.ix];
      assert t1[..r1.ix] == t[..r.ix];
    }
  }

  /** A reader with no word pending and its index at the first slot reads the whole
      first word of the input: it stops just after the end marker, raises `new_word`,
      resets its index, and `atoi` on its buffer gives the word's value. */
  lemma ReadWordYields(r: ReaderState, input: seq<char>)
    requires Wf(r) && !r.newWord && r.ix == 0 && EndMarker in input
    ensures var (r', rest) := Feed(r, input);
            r'.newWord && r'.ix == 0 && rest == AfterWord(input)
            && ToU16(Atoi(r'.buf)) == WordValue(FirstWord(input))
  {
    var res := Feed(r, input);
    FeedFirstWord(r, input);
    TerminatedBufferValue(res.0.buf, FirstWord(input));
  }

  /** From index 0, the buffer ends up holding the first 15 (or fewer) characters of
      the first word, then the terminator. */
  lemma FeedFirstWord(r: ReaderState, input: seq<char>)
    requires Wf(r) && !r.newWord && r.ix == 0 && EndMarker in input
    ensures var res := Feed(r, input); var w := FirstWord(input);
            var k := Min(|w|, DataLength - 1);
            res.1 == AfterWord(input) && res.0.newWord && res.0.ix == 0
            && res.0.buf[..k] == w[..k] && res.0.buf[k] == Nul
  {
    SplitAtTerminator(input);
    FeedSplit(r, input, FirstWord(input), AfterWord(input));
  }

  /** `FeedWord` from index 0 on an input already cut into a word, the end marker and
      the rest. */
  lemma FeedSplit(r: ReaderState, input: seq<char>, w: seq<char>, rest: seq<char>)
    requires Wf(r) && !r.newWord && r.ix == 0
    requires input == w + [EndMarker] + rest && EndMarker !in w
    ensures var res := Feed(r, input); var k := Min(|w|, DataLength - 1);
            res.1 == rest && res.0.newWord && res.0.ix == 0
            && res.0.buf[..k] == w[..k] && res.0.buf[k] == Nul
  {
    FeedWord(r, [], w, rest);
    assert [] + w == w;
  }

  /** The input is its first word, the end marker and the characters after it. */
  lemma SplitAtTerminator(s: seq<char>)
    requires EndMarker in s
    ensures s == FirstWord(s) + [EndMarker] + AfterWord(s) && EndMarker !in FirstWord(s)
  {
  }

  /** A buffer holding the first 15 (or fewer) characters of w, then the terminator,
      reads as the value of w. */
  lemma TerminatedBufferValue(buf: seq<char>, w: seq<char>)
    requires |buf| == DataLength
    requires var k := Min(|w|, DataLength - 1); buf[..k] == w[..k] && buf[k] == Nul
    ensures ToU16(Atoi(buf)) == WordValue(w)
  {
    var k := Min(|w|, DataLength - 1);
    assert buf == buf[..k] + [Nul] + buf[k + 1..];
    AtoiStopsAtNonDigit(w[..k], Nul, buf[k + 1..]);
  }

  /** Without an end marker the reader consumes everything and no word becomes ready. */
  lemma {:induction false} FeedWithoutTerminator(r: ReaderState, input: seq<char>)
    requires Wf(r) && !r.newWord && EndMarker !in input
    ensures Feed(r, input).1 == [] && !Feed(r, input).0.newWord
    decreases |input|
  {
    if |input| > 0 {
      assert input[0] in input;
      assert forall c :: c in input[1..] ==> c in input;
      FeedWithoutTerminator(Step(r, input[0]), input[1..]);
    }
  }

  /** "123" followed by the end marker reads as 123. */
  lemma OneTwoThree()
    ensures WordValue("123") == 123
  {
    var s := "123";
    assert s[..3] == s;
    assert LeadingDigits(s[2..]) == "3";
    assert LeadingDigits(s[1..]) == "23";
    assert LeadingDigits(s) == s;
    assert s[..2] == "12" && "12"[..1] == "1" && "1"[..0] == [];
  }

  /** A bare end marker reads as 0. */
  lemma EmptyWordIsZero()
    ensures WordValue([]) == 0
  {
  }

  /** The 16th and later characters of a word are dropped. */
  lemma LongWordKeepsFifteen(w: seq<char>)
    requires |w| >= DataLength - 1
    ensures WordValue(w) == WordValue(w[..DataLength - 1])
  {
    assert w[..DataLength - 1][..DataLength - 1] == w[..DataLength - 1];
  }

  /** The buffer, static index and `new_word` flag as a mutable object. */
  class LineReader {
    const buf: array<char>
    var ix: nat
    var newWord: bool

    ghost predicate Valid()
      reads this
    {
      buf.Length == DataLength && ix < DataLength
    }

    ghost function State(): (r: ReaderState)
      reads this, buf
      requires Valid()
      ensures Wf(r)
    {
      ReaderState(buf[..], ix, newWord)
    }

    constructor ()
      ensures Valid() && fresh(buf) && ix == 0 && !newWord
    {
      buf := new char[DataLength](_ => Nul);
      ix := 0;
      newWord := false;
    }

    /** `ReadWord`: consumes characters of `input` as `Feed` describes and returns
        `atoi` of the buffer cast to `uint16_t`, with the characters left unread. */
    method ReadWord(input: seq<char>) returns (value: U16, rest: seq<char>)
      requires Valid()
      modifies this, buf
      ensures Valid()
      ensures (State(), rest) == Feed(old(State()), input)
      ensures value == ToU16(Atoi(buf[..]))
    {
      rest := input;
      while |rest| > 0 && !newWord
        invariant Valid()
        invariant Feed(old(State()), input) == Feed(State(), rest)
        decreases |rest|
      {
        var rc := rest[0];
        ghost var before := State();
        rest := rest[1..];
        if rc != EndMarker {
          buf[ix] := rc;
          ix := ix + 1;
          if ix >= DataLength {
            ix := DataLength - 1;
          }
        } else {
          buf[ix] := Nul;
          ix := 0;
          newWord := true;
        }
        assert State() == Step(before, rc);
      }
      value := ToU16(Atoi(buf[..]));
    }
  }
}
