/**
 * The reader of a staging helper's output: chunks of any size are cut into lines at LF and CR, the
 * lines of the progress stream update a shared record, and both streams share one byte allowance.
 */
module HelperOutput {
  import opened Basics
  import opened Text

  const MAX_OUTPUT_BYTES: nat := 8 * 1024 * 1024
  const MAX_LINE_BYTES: nat := 16 * 1024
  const USIZE_MAX: nat := U64_MAX
  const LF: Byte := 10
  const CR: Byte := 13

  datatype Event = Progress(downloaded: nat, total: Option<nat>) | CompletedFile(path: string)

  /** UTF-8 decoding and the framing of download events. */
  datatype Grammar = Grammar(decode: seq<Byte> -> Option<string>, parse: string -> Option<Event>)

  datatype Seen = Seen(progress: Option<(nat, Option<nat>)>, completed: Option<string>)

  datatype Fault = ReadFailed(message: string) | LimitExceeded | NotUtf8 | SecondFile

  // ----- One line -----

  function Report(g: Grammar, text: string): Option<Event> {
    var size := match StripPrefix(text, "total_size=")
                case None => None
                case Some(value) => ParseU64(value);
    match size
    case Some(n) => Some(Progress(n, None))
    case None => g.parse(text)
  }

  /** A size line of the helper reports that size; any other line is left to the download framing. */
  lemma ReportMeaning(g: Grammar, text: string)
    ensures forall value :: text == "total_size=" + value && Numeral(value) && NumeralValue(value) <= U64_MAX ==>
      Report(g, text) == Some(Progress(NumeralValue(value), None))
    ensures (forall value :: text == "total_size=" + value ==> !Numeral(value) || NumeralValue(value) > U64_MAX) ==>
      Report(g, text) == g.parse(text)
  {
    hide ParseU64, NumeralValue, Numeral;
    forall value | text == "total_size=" + value
      ensures StripPrefix(text, "total_size=") == Some(value)
      ensures ParseU64(value) == if Numeral(value) && NumeralValue(value) <= U64_MAX then Some(NumeralValue(value)) else None
    {
      PrefixOff("total_size=", value);
      ParseMeaning(value);
    }
    if "total_size=" <= text {
      assert text == "total_size=" + text[11..];
    }
  }

  function Consume(g: Grammar, seen: Seen, line: seq<Byte>): Result<Seen, Fault> {
    match g.decode(line)
    case None => Err(NotUtf8)
    case Some(text) =>
      match Report(g, text)
      case None => Ok(seen)
      case Some(Progress(downloaded, total)) => Ok(seen.(progress := Some((downloaded, total))))
      case Some(CompletedFile(path)) =>
        if seen.completed.Some? && seen.completed.value != path then Err(SecondFile)
        else Ok(seen.(completed := Some(path)))
  }

  // ----- One byte at a time, as the reader works -----

  predicate Ends(b: Byte) { b == LF || b == CR }

  datatype Cursor = Open(seen: Seen, line: seq<Byte>) | Halted(fault: Fault, seen: Seen)

  function Taken(g: Grammar, progressStream: bool, seen: Seen, line: seq<Byte>): Cursor {
    if !progressStream then Open(seen, [])
    else
      match Consume(g, seen, line)
      case Ok(next) => Open(next, [])
      case Err(fault) => Halted(fault, seen)
  }

  function Step(g: Grammar, progressStream: bool, c: Cursor, b: Byte): Cursor {
    if c.Halted? then c
    else if Ends(b) then Taken(g, progressStream, c.seen, c.line)
    else if |c.line| >= MAX_LINE_BYTES then Halted(LimitExceeded, c.seen)
    else Open(c.seen, c.line + [b])
  }

  function Feed(g: Grammar, progressStream: bool, c: Cursor, s: seq<Byte>): Cursor {
    if s == [] then c else Step(g, progressStream, Feed(g, progressStream, c, s[..|s| - 1]), s[|s| - 1])
  }

  lemma {:induction false} FeedConcat(g: Grammar, progressStream: bool, c: Cursor, a: seq<Byte>, b: seq<Byte>)
    ensures Feed(g, progressStream, c, a + b) == Feed(g, progressStream, Feed(g, progressStream, c, a), b)
  {
    if b == [] {
      assert a + b == a;
    } else {
      assert (a + b)[..|a + b| - 1] == a + b[..|b| - 1];
      FeedConcat(g, progressStream, c, a, b[..|b| - 1]);
    }
  }

  lemma {:induction false} HaltedStays(g: Grammar, progressStream: bool, c: Cursor, s: seq<Byte>)
    requires c.Halted?
    ensures Feed(g, progressStream, c, s) == c
  {
    if s != [] {
      HaltedStays(g, progressStream, c, s[..|s| - 1]);
    }
  }

  // ----- The same thing said about the whole stream: its lines, in order -----

  /** The terminated lines of a stream and what follows the last terminator. */
  datatype Framed = Framed(lines: seq<seq<Byte>>, tail: seq<Byte>)

  function Split(s: seq<Byte>): Framed {
    if s == [] then Framed([], []) else Grown(Split(s[..|s| - 1]), s[|s| - 1])
  }

  function Grown(t: Framed, b: Byte): Framed {
    if Ends(b) then Framed(t.lines + [t.tail], []) else t.(tail := t.tail + [b])
  }

  predicate Unbroken(line: seq<Byte>) {
    forall i :: 0 <= i < |line| ==> line[i] != 10 && line[i] != 13
  }

  function Join(lines: seq<seq<Byte>>, ends: seq<Byte>): seq<Byte>
    requires |lines| == |ends|
  {
    if lines == [] then []
    else Join(lines[..|lines| - 1], ends[..|ends| - 1]) + lines[|lines| - 1] + [ends[|ends| - 1]]
  }

  predicate Terminators(ends: seq<Byte>) {
    forall i :: 0 <= i < |ends| ==> ends[i] == 10 || ends[i] == 13
  }

  lemma {:induction false} SplitTail(s: seq<Byte>, tail: seq<Byte>)
    requires Unbroken(tail)
    ensures Split(s + tail) == Split(s).(tail := Split(s).tail + tail)
  {
    if tail == [] {
      assert s + tail == s;
    } else {
      var front := tail[..|tail| - 1];
      assert (s + tail)[..|s + tail| - 1] == s + front;
      SplitTail(s, front);
      assert front + [tail[|tail| - 1]] == tail;
    }
  }

  /** Lines without terminators, each closed by one terminator, are exactly what splitting gives back. */
  lemma {:induction false} SplitJoin(lines: seq<seq<Byte>>, ends: seq<Byte>, tail: seq<Byte>)
    requires |lines| == |ends| && Terminators(ends)
    requires forall i :: 0 <= i < |lines| ==> Unbroken(lines[i])
    requires Unbroken(tail)
    ensures Split(Join(lines, ends) + tail) == Framed(lines, tail)
  {
    var s := Join(lines, ends);
    if lines != [] {
      var n := |lines| - 1;
      SplitJoin(lines[..n], ends[..n], lines[n]);
      assert s[..|s| - 1] == Join(lines[..n], ends[..n]) + lines[n];
      assert lines[..n] + [lines[n]] == lines;
    }
    SplitTail(s, tail);
  }

  /** Every stream has such a decomposition, so with `SplitJoin` it is the only one. */
  lemma {:induction false} JoinSplit(s: seq<Byte>) returns (ends: seq<Byte>)
    ensures |ends| == |Split(s).lines| && Terminators(ends)
    ensures forall i :: 0 <= i < |Split(s).lines| ==> Unbroken(Split(s).lines[i])
    ensures Unbroken(Split(s).tail)
    ensures Join(Split(s).lines, ends) + Split(s).tail == s
  {
    ends := [];
    if s != [] {
      var n := |s| - 1;
      var t := Split(s[..n]);
      var before := JoinSplit(s[..n]);
      assert s == s[..n] + [s[n]];
      if Ends(s[n]) {
        ends := before + [s[n]];
        var lines := t.lines + [t.tail];
        assert lines[..|lines| - 1] == t.lines && ends[..|ends| - 1] == before;
      } else {
        ends := before;
      }
    }
  }

  /** Takes lines in order; an overlong line exceeds the limit whether or not it would be consumed. */
  function TakeLines(g: Grammar, progressStream: bool, seen: Seen, lines: seq<seq<Byte>>): Cursor {
    if lines == [] then Open(seen, [])
    else
      var before := TakeLines(g, progressStream, seen, lines[..|lines| - 1]);
      var line := lines[|lines| - 1];
      if before.Halted? then before
      else if |line| > MAX_LINE_BYTES then Halted(LimitExceeded, before.seen)
      else Taken(g, progressStream, before.seen, line)
  }

  function ByLine(g: Grammar, progressStream: bool, seen: Seen, t: Framed): Cursor {
    var taken := TakeLines(g, progressStream, seen, t.lines);
    if taken.Halted? then taken
    else if |t.tail| > MAX_LINE_BYTES then Halted(LimitExceeded, taken.seen)
    else Open(taken.seen, t.tail)
  }

  lemma ByLineGrows(g: Grammar, progressStream: bool, seen: Seen, t: Framed, b: Byte)
    ensures Step(g, progressStream, ByLine(g, progressStream, seen, t), b) == ByLine(g, progressStream, seen, Grown(t, b))
  {
    hide Consume;
    if Ends(b) {
      var lines := t.lines + [t.tail];
      assert lines[..|lines| - 1] == t.lines && lines[|lines| - 1] == t.tail;
    }
  }

  /** The byte loop takes exactly the lines of the stream. */
  lemma {:induction false} FeedIsByLine(g: Grammar, progressStream: bool, seen: Seen, s: seq<Byte>)
    ensures Feed(g, progressStream, Open(seen, []), s) == ByLine(g, progressStream, seen, Split(s))
  {
    if s == [] {
      assert Split(s) == Framed([], []);
    } else {
      hide Step, ByLine, Grown;
      FeedIsByLine(g, progressStream, seen, s[..|s| - 1]);
      ByLineGrows(g, progressStream, seen, Split(s[..|s| - 1]), s[|s| - 1]);
    }
  }

  /** Everything the progress stream reports, when nothing is wrong with it. */
  ghost predicate Readable(g: Grammar, seen: Seen, lines: seq<seq<Byte>>) {
    && (forall i :: 0 <= i < |lines| ==> |lines[i]| <= MAX_LINE_BYTES && g.decode(lines[i]).Some?)
    && (forall i, j :: 0 <= i < j < |lines| && Names(g, lines[i]).Some? && Names(g, lines[j]).Some? ==>
          Names(g, lines[i]) == Names(g, lines[j]))
    && (forall i :: 0 <= i < |lines| && Names(g, lines[i]).Some? && seen.completed.Some? ==>
          Names(g, lines[i]) == seen.completed)
  }

  /** The completed file a line names. */
  function Names(g: Grammar, line: seq<Byte>): Option<string> {
    match g.decode(line)
    case None => None
    case Some(text) =>
      match Report(g, text)
      case Some(CompletedFile(path)) => Some(path)
      case _ => None
  }

  /** The progress a line reports. */
  function Counts(g: Grammar, line: seq<Byte>): Option<(nat, Option<nat>)> {
    match g.decode(line)
    case None => None
    case Some(text) =>
      match Report(g, text)
      case Some(Progress(downloaded, total)) => Some((downloaded, total))
      case _ => None
  }

  ghost predicate IsLast<T(!new)>(g: Grammar, lines: seq<seq<Byte>>, f: (Grammar, seq<Byte>) -> Option<T>,
                                  before: Option<T>, after: Option<T>) {
    || (after == before && forall i :: 0 <= i < |lines| ==> f(g, lines[i]) == None)
    || exists k :: 0 <= k < |lines| && f(g, lines[k]) == after && after.Some? && forall i :: k < i < |lines| ==> f(g, lines[i]) == None
  }

  /**
   * Reading succeeds exactly when every line fits, is UTF-8, and all completion lines name one file;
   * then the progress is the last one reported and the completed file is the one named.
   */
  lemma {:induction false} TakenMeaning(g: Grammar, seen: Seen, lines: seq<seq<Byte>>)
    ensures TakeLines(g, true, seen, lines).Open? <==> Readable(g, seen, lines)
    ensures TakeLines(g, true, seen, lines).Open? ==> (
      && IsLast(g, lines, Counts, seen.progress, TakeLines(g, true, seen, lines).seen.progress)
      && IsLast(g, lines, Names, seen.completed, TakeLines(g, true, seen, lines).seen.completed))
  {
    if lines != [] {
      var n := |lines| - 1;
      var front, line := lines[..n], lines[n];
      TakenMeaning(g, seen, front);
      var before := TakeLines(g, true, seen, front);
      if before.Open? {
        IsLastNext(g, lines, Counts, seen.progress, before.seen.progress);
        IsLastNext(g, lines, Names, seen.completed, before.seen.completed);
        ReadableNext(g, seen, lines, before.seen.completed);
      } else if Readable(g, seen, lines) {
        assert Readable(g, seen, front);
      }
    }
  }

  /**
   * Where reading stops early it is at the first line that is too long, is no UTF-8, or names a second
   * file, with that fault, and the record is that of the lines before.
   */
  lemma {:induction false} FaultMeaning(g: Grammar, seen: Seen, lines: seq<seq<Byte>>) returns (k: nat)
    requires TakeLines(g, true, seen, lines).Halted?
    ensures k < |lines| && Readable(g, seen, lines[..k])
    ensures TakeLines(g, true, seen, lines).seen == TakeLines(g, true, seen, lines[..k]).seen
    ensures TakeLines(g, true, seen, lines).fault ==
      if |lines[k]| > MAX_LINE_BYTES then LimitExceeded else if g.decode(lines[k]).None? then NotUtf8 else SecondFile
  {
    k := |lines| - 1;
    var before := TakeLines(g, true, seen, lines[..k]);
    if before.Halted? {
      var last := k;
      k := FaultMeaning(g, seen, lines[..last]);
      assert lines[..last][..k] == lines[..k];
    } else {
      TakenMeaning(g, seen, lines[..k]);
    }
  }

  /** The other stream only has to keep its lines short; it reports nothing. */
  lemma {:induction false} SilentMeaning(g: Grammar, seen: Seen, lines: seq<seq<Byte>>)
    ensures TakeLines(g, false, seen, lines) ==
      if forall i :: 0 <= i < |lines| ==> |lines[i]| <= MAX_LINE_BYTES then Open(seen, []) else Halted(LimitExceeded, seen)
  {
    if lines != [] {
      SilentMeaning(g, seen, lines[..|lines| - 1]);
    }
  }

  lemma IsLastNext<T(!new)>(g: Grammar, lines: seq<seq<Byte>>, f: (Grammar, seq<Byte>) -> Option<T>,
                            before: Option<T>, after: Option<T>)
    requires lines != [] && IsLast(g, lines[..|lines| - 1], f, before, after)
    ensures IsLast(g, lines, f, before,
                   if f(g, lines[|lines| - 1]).Some? then f(g, lines[|lines| - 1]) else after)
  {
    var n := |lines| - 1;
    var front := lines[..n];
    if f(g, lines[n]).Some? {
      assert 0 <= n < |lines| && f(g, lines[n]).Some?;
    } else if !(after == before && forall i :: 0 <= i < n ==> f(g, front[i]) == None) {
      var k :| 0 <= k < n && f(g, front[k]) == after && after.Some? && forall i :: k < i < n ==> f(g, front[i]) == None;
      assert f(g, lines[k]) == after;
      forall i | k < i < |lines|
        ensures f(g, lines[i]) == None
      {
        if i < n {
          assert lines[i] == front[i];
        }
      }
    } else {
      forall i | 0 <= i < |lines|
        ensures f(g, lines[i]) == None
      {
        if i < n {
          assert lines[i] == front[i];
        }
      }
    }
  }

  /** One more line is fine exactly when it fits, is text, and names no second file. */
  lemma ReadableNext(g: Grammar, seen: Seen, lines: seq<seq<Byte>>, named: Option<string>)
    requires lines != [] && Readable(g, seen, lines[..|lines| - 1])
    requires IsLast(g, lines[..|lines| - 1], Names, seen.completed, named)
    ensures Readable(g, seen, lines) <==> (
      var line := lines[|lines| - 1];
      && |line| <= MAX_LINE_BYTES && g.decode(line).Some?
      && (Names(g, line).Some? && named.Some? ==> Names(g, line) == named))
  {
    var n := |lines| - 1;
    var front, line := lines[..n], lines[n];
    assert forall i :: 0 <= i < n ==> front[i] == lines[i];
    if Names(g, line).Some? && named.Some? && named != seen.completed {
      var k :| 0 <= k < n && Names(g, front[k]) == named;
      assert lines[k] == front[k];
    }
  }

  // ----- Reads that cut the stream anywhere -----

  type Chunk = s: seq<Byte> | 0 < |s| <= 4096 witness [0]

  /** One read; `others` is what the other stream's reader has added to the shared counter meanwhile. */
  datatype Read = Data(bytes: Chunk, others: nat) | Interrupted

  datatype Ending = Eof(others: nat) | Failure(message: string)

  function Bytes(cuts: seq<Read>): seq<Byte> {
    if cuts == [] then []
    else (if cuts[0].Data? then cuts[0].bytes else []) + Bytes(cuts[1..])
  }

  /** What the whole reading adds to the shared counter. */
  function Total(cuts: seq<Read>, last: Ending): nat {
    if cuts == [] then (if last.Eof? then last.others else 0)
    else (if cuts[0].Data? then cuts[0].others + |cuts[0].bytes| else 0) + Total(cuts[1..], last)
  }

  function SaturatingAdd(a: nat, b: nat): nat { Min(a + b, USIZE_MAX) }

  datatype Outcome = Outcome(result: Result<(), Fault>, seen: Seen)

  /** What the end of the stream makes of the open line. */
  function Conclude(g: Grammar, progressStream: bool, c: Cursor, last: Ending): Outcome {
    if c.Halted? then Outcome(Err(c.fault), c.seen)
    else if last.Failure? then Outcome(Err(ReadFailed(last.message)), c.seen)
    else if progressStream && c.line != [] then
      match Consume(g, c.seen, c.line)
      case Ok(next) => Outcome(Ok(()), next)
      case Err(fault) => Outcome(Err(fault), c.seen)
    else Outcome(Ok(()), c.seen)
  }

  /** The reading loop, read by read. */
  function Drain(g: Grammar, progressStream: bool, c: Cursor, counted: nat, cuts: seq<Read>, last: Ending): Outcome
    requires c.Open?
    decreases |cuts|
  {
    if cuts == [] then
      if last.Eof? && SaturatingAdd(counted, last.others) > MAX_OUTPUT_BYTES then Outcome(Err(LimitExceeded), c.seen)
      else Conclude(g, progressStream, c, last)
    else if cuts[0].Interrupted? then
      Drain(g, progressStream, c, counted, cuts[1..], last)
    else
      var count := SaturatingAdd(SaturatingAdd(counted, cuts[0].others), |cuts[0].bytes|);
      var next := Feed(g, progressStream, c, cuts[0].bytes);
      if count > MAX_OUTPUT_BYTES then Outcome(Err(LimitExceeded), c.seen)
      else if next.Halted? then Outcome(Err(next.fault), next.seen)
      else Drain(g, progressStream, next, count, cuts[1..], last)
  }

  /** Within the byte limit the outcome depends on the bytes alone, not on how the reads cut them. */
  lemma {:induction false} DrainWithin(g: Grammar, progressStream: bool, c: Cursor, counted: nat, cuts: seq<Read>, last: Ending)
    requires c.Open? && counted + Total(cuts, last) <= MAX_OUTPUT_BYTES
    ensures Drain(g, progressStream, c, counted, cuts, last)
         == Conclude(g, progressStream, Feed(g, progressStream, c, Bytes(cuts)), last)
    decreases |cuts|
  {
    if cuts == [] {
      assert Feed(g, progressStream, c, []) == c;
    } else if cuts[0].Interrupted? {
      assert Bytes(cuts) == Bytes(cuts[1..]);
      DrainWithin(g, progressStream, c, counted, cuts[1..], last);
    } else {
      DrainOneRead(g, progressStream, c, counted, cuts, last);
      FitsOneRead(counted, cuts);
      hide Feed, Drain, Consume, SaturatingAdd, Fits;
      var next := Feed(g, progressStream, c, cuts[0].bytes);
      FeedConcat(g, progressStream, c, cuts[0].bytes, Bytes(cuts[1..]));
      if next.Halted? {
        HaltedStays(g, progressStream, next, Bytes(cuts[1..]));
      } else {
        DrainWithin(g, progressStream, next, counted + cuts[0].others + |cuts[0].bytes|, cuts[1..], last);
      }
    }
  }

  /** How many bytes are read before the read that takes the counter over the limit. */
  function Fits(counted: nat, cuts: seq<Read>): nat
    decreases |cuts|
  {
    if cuts == [] then 0
    else if cuts[0].Interrupted? then Fits(counted, cuts[1..])
    else
      var count := counted + cuts[0].others + |cuts[0].bytes|;
      if count > MAX_OUTPUT_BYTES then 0 else |cuts[0].bytes| + Fits(count, cuts[1..])
  }

  /** What is reported when the limit is exceeded after a cursor was reached: an earlier fault stands. */
  function Exceeded(c: Cursor): Outcome {
    Outcome(Err(if c.Halted? then c.fault else LimitExceeded), c.seen)
  }

  /**
   * Beyond the limit reading always fails, at a place the counter determines: the bytes taken in stay
   * within the limit, and one more read of at most 4096 bytes goes over it.
   */
  lemma {:induction false} DrainBeyond(g: Grammar, progressStream: bool, c: Cursor, counted: nat, cuts: seq<Read>, last: Ending)
    requires c.Open? && counted <= MAX_OUTPUT_BYTES < counted + Total(cuts, last)
    ensures Fits(counted, cuts) <= |Bytes(cuts)|
    ensures Drain(g, progressStream, c, counted, cuts, last)
         == Exceeded(Feed(g, progressStream, c, Bytes(cuts)[..Fits(counted, cuts)]))
    decreases |cuts|
  {
    FitsBounds(counted, cuts, last);
    if cuts == [] {
      assert Bytes(cuts)[..0] == [] && Feed(g, progressStream, c, []) == c;
    } else if cuts[0].Interrupted? {
      assert Bytes(cuts) == Bytes(cuts[1..]);
      DrainBeyond(g, progressStream, c, counted, cuts[1..], last);
    } else {
      hide Feed, Drain, Exceeded;
      var next, count := Feed(g, progressStream, c, cuts[0].bytes), counted + cuts[0].others + |cuts[0].bytes|;
      if next.Open? && count <= MAX_OUTPUT_BYTES {
        DrainBeyond(g, progressStream, next, count, cuts[1..], last);
      }
      hide Total;
      BeyondOneRead(g, progressStream, c, counted, cuts, last, Bytes(cuts), Bytes(cuts[1..]), Fits(counted, cuts));
    }
  }

  /** The step of `DrainBeyond` over one read, given what the rest of the reading does. */
  lemma BeyondOneRead(g: Grammar, progressStream: bool, c: Cursor, counted: nat, cuts: seq<Read>, last: Ending,
                      whole: seq<Byte>, rest: seq<Byte>, k: nat)
    requires c.Open? && cuts != [] && cuts[0].Data?
    requires whole == Bytes(cuts) && rest == Bytes(cuts[1..]) && k == Fits(counted, cuts) <= |whole|
    requires var next, count := Feed(g, progressStream, c, cuts[0].bytes), counted + cuts[0].others + |cuts[0].bytes|;
      next.Open? && count <= MAX_OUTPUT_BYTES ==>
        && Fits(count, cuts[1..]) <= |rest|
        && Drain(g, progressStream, next, count, cuts[1..], last)
             == Exceeded(Feed(g, progressStream, next, rest[..Fits(count, cuts[1..])]))
    ensures Drain(g, progressStream, c, counted, cuts, last) == Exceeded(Feed(g, progressStream, c, whole[..k]))
  {
    var chunk := cuts[0].bytes;
    var next, count := Feed(g, progressStream, c, chunk), counted + cuts[0].others + |chunk|;
    hide *;
    FitsOneRead(counted, cuts);
    DrainOneRead(g, progressStream, c, counted, cuts, last);
    if count > MAX_OUTPUT_BYTES {
      FeedNothing(g, progressStream, c, whole);
    } else {
      FeedOneRead(g, progressStream, c, chunk, whole, rest, Fits(count, cuts[1..]));
    }
  }

  lemma FitsOneRead(counted: nat, cuts: seq<Read>)
    requires cuts != [] && cuts[0].Data?
    ensures Bytes(cuts) == cuts[0].bytes + Bytes(cuts[1..])
    ensures var count := counted + cuts[0].others + |cuts[0].bytes|;
      Fits(counted, cuts) == if count > MAX_OUTPUT_BYTES then 0 else |cuts[0].bytes| + Fits(count, cuts[1..])
  {
  }

  lemma FeedNothing(g: Grammar, progressStream: bool, c: Cursor, s: seq<Byte>)
    requires c.Open?
    ensures Exceeded(Feed(g, progressStream, c, s[..0])) == Outcome(Err(LimitExceeded), c.seen)
  {
    assert s[..0] == [] && Feed(g, progressStream, c, []) == c;
  }

  /** One read, with the limit said without saturation. */
  lemma DrainOneRead(g: Grammar, progressStream: bool, c: Cursor, counted: nat, cuts: seq<Read>, last: Ending)
    requires c.Open? && cuts != [] && cuts[0].Data?
    ensures var next, count := Feed(g, progressStream, c, cuts[0].bytes), counted + cuts[0].others + |cuts[0].bytes|;
      Drain(g, progressStream, c, counted, cuts, last) ==
        if count > MAX_OUTPUT_BYTES then Outcome(Err(LimitExceeded), c.seen)
        else if next.Halted? then Outcome(Err(next.fault), next.seen)
        else Drain(g, progressStream, next, count, cuts[1..], last)
  {
    hide Feed;
  }

  /** A reader that starts with the allowance already spent fails at its first read. */
  lemma {:induction false} DrainExhausted(g: Grammar, progressStream: bool, c: Cursor, counted: nat, cuts: seq<Read>, last: Ending)
    requires c.Open? && counted > MAX_OUTPUT_BYTES
    ensures Drain(g, progressStream, c, counted, cuts, last).result.Err?
    ensures Drain(g, progressStream, c, counted, cuts, last).seen == c.seen
    decreases |cuts|
  {
    if cuts != [] && cuts[0].Interrupted? {
      DrainExhausted(g, progressStream, c, counted, cuts[1..], last);
    }
  }

  lemma FeedOneRead(g: Grammar, progressStream: bool, c: Cursor, chunk: seq<Byte>, whole: seq<Byte>, rest: seq<Byte>, more: nat)
    requires whole == chunk + rest && more <= |rest|
    ensures var next := Feed(g, progressStream, c, chunk);
      && Feed(g, progressStream, c, whole[..|chunk| + more]) == Feed(g, progressStream, next, rest[..more])
      && (next.Halted? ==> Exceeded(Feed(g, progressStream, next, rest[..more])) == Outcome(Err(next.fault), next.seen))
  {
    var next := Feed(g, progressStream, c, chunk);
    FeedConcat(g, progressStream, c, chunk, rest[..more]);
    assert whole[..|chunk| + more] == chunk + rest[..more];
    if next.Halted? {
      HaltedStays(g, progressStream, next, rest[..more]);
    }
  }

  /** Where reading stops beyond the limit, up to one read and to what the other stream added. */
  lemma {:induction false} FitsBounds(counted: nat, cuts: seq<Read>, last: Ending)
    requires counted + Total(cuts, last) > MAX_OUTPUT_BYTES
    ensures Fits(counted, cuts) <= |Bytes(cuts)|
    ensures counted <= MAX_OUTPUT_BYTES ==> counted + Fits(counted, cuts) <= MAX_OUTPUT_BYTES
    ensures counted + (Total(cuts, last) - |Bytes(cuts)|) + Fits(counted, cuts) + 4096 > MAX_OUTPUT_BYTES
    ensures |Bytes(cuts)| <= Total(cuts, last)
    decreases |cuts|
  {
    TotalCovers(cuts, last);
    if cuts != [] {
      if cuts[0].Interrupted? {
        assert Bytes(cuts) == Bytes(cuts[1..]);
        FitsBounds(counted, cuts[1..], last);
      } else {
        var count := counted + cuts[0].others + |cuts[0].bytes|;
        TotalCovers(cuts[1..], last);
        if count <= MAX_OUTPUT_BYTES {
          FitsBounds(count, cuts[1..], last);
        }
      }
    }
  }

  lemma {:induction false} TotalCovers(cuts: seq<Read>, last: Ending)
    ensures |Bytes(cuts)| <= Total(cuts, last)
  {
    if cuts != [] {
      TotalCovers(cuts[1..], last);
    }
  }

  /** A fresh reading, said by lines: the split of the whole stream, then the trailing line if any. */
  function Whole(g: Grammar, progressStream: bool, seen: Seen, s: seq<Byte>, last: Ending): Outcome {
    Conclude(g, progressStream, ByLine(g, progressStream, seen, Split(s)), last)
  }

  /** The lines to be read: the terminated ones, and the trailing one unless it is empty. */
  function AllLines(s: seq<Byte>): seq<seq<Byte>> {
    Split(s).lines + if Split(s).tail == [] then [] else [Split(s).tail]
  }

  /**
   * Reading the progress stream to its end succeeds exactly when all its lines fit, are UTF-8 and
   * name at most one file; the record then holds the last progress and that file.
   */
  lemma WholeMeaning(g: Grammar, seen: Seen, s: seq<Byte>, others: nat)
    ensures Whole(g, true, seen, s, Eof(others)).result.Ok? <==> Readable(g, seen, AllLines(s))
    ensures Whole(g, true, seen, s, Eof(others)).result.Ok? ==> (
      && IsLast(g, AllLines(s), Counts, seen.progress, Whole(g, true, seen, s, Eof(others)).seen.progress)
      && IsLast(g, AllLines(s), Names, seen.completed, Whole(g, true, seen, s, Eof(others)).seen.completed))
  {
    WholeIsLines(g, true, seen, s, Eof(others));
    TakenMeaning(g, seen, AllLines(s));
  }

  /** A reading that comes to the end of file is the taking of all its lines, whichever stream it is. */
  lemma WholeIsLines(g: Grammar, progressStream: bool, seen: Seen, s: seq<Byte>, last: Ending)
    requires last.Eof?
    ensures var c := TakeLines(g, progressStream, seen, AllLines(s));
      Whole(g, progressStream, seen, s, last) == Outcome(if c.Halted? then Err(c.fault) else Ok(()), c.seen)
  {
    var t, lines := Split(s), AllLines(s);
    if t.tail == [] {
      assert lines == t.lines;
    } else {
      assert lines[..|lines| - 1] == t.lines && lines[|lines| - 1] == t.tail;
    }
  }

  /** A reading that fails says so, unless a line before the failure was at fault already. */
  lemma WholeFails(g: Grammar, progressStream: bool, seen: Seen, s: seq<Byte>, message: string)
    ensures var c, o := TakeLines(g, progressStream, seen, Split(s).lines), Whole(g, progressStream, seen, s, Failure(message));
      && o.seen == c.seen
      && o.result == Err(if c.Halted? then c.fault
                         else if |Split(s).tail| > MAX_LINE_BYTES then LimitExceeded else ReadFailed(message))
  {
    hide Split, TakeLines;
  }

  /** The outcome of a reading: exact within the limit, and a failure beyond it. */
  lemma DrainIsWhole(g: Grammar, progressStream: bool, seen: Seen, counted: nat, cuts: seq<Read>, last: Ending)
    ensures counted + Total(cuts, last) <= MAX_OUTPUT_BYTES ==>
      Drain(g, progressStream, Open(seen, []), counted, cuts, last) == Whole(g, progressStream, seen, Bytes(cuts), last)
    ensures Drain(g, progressStream, Open(seen, []), counted, cuts, last).result.Ok? <==>
      counted + Total(cuts, last) <= MAX_OUTPUT_BYTES && Whole(g, progressStream, seen, Bytes(cuts), last).result.Ok?
  {
    if counted + Total(cuts, last) <= MAX_OUTPUT_BYTES {
      DrainWithin(g, progressStream, Open(seen, []), counted, cuts, last);
      FeedIsByLine(g, progressStream, seen, Bytes(cuts));
    } else if counted <= MAX_OUTPUT_BYTES {
      DrainBeyond(g, progressStream, Open(seen, []), counted, cuts, last);
    } else {
      DrainExhausted(g, progressStream, Open(seen, []), counted, cuts, last);
    }
  }

  /** Two ways of cutting the same bytes give the same outcome when both stay within the limit. */
  lemma CutsDoNotMatter(g: Grammar, progressStream: bool, seen: Seen,
                        counted: nat, cuts: seq<Read>, last: Ending,
                        counted': nat, cuts': seq<Read>, last': Ending)
    requires Bytes(cuts) == Bytes(cuts')
    requires last == last' || (last.Eof? && last'.Eof?)
    requires counted + Total(cuts, last) <= MAX_OUTPUT_BYTES && counted' + Total(cuts', last') <= MAX_OUTPUT_BYTES
    ensures Drain(g, progressStream, Open(seen, []), counted, cuts, last)
         == Drain(g, progressStream, Open(seen, []), counted', cuts', last')
  {
    DrainIsWhole(g, progressStream, seen, counted, cuts, last);
    DrainIsWhole(g, progressStream, seen, counted', cuts', last');
  }

  // ----- Beyond the limit -----

  /** What the other stream adds to the shared counter during a reading. */
  function Others(cuts: seq<Read>, last: Ending): nat {
    if cuts == [] then (if last.Eof? then last.others else 0)
    else (if cuts[0].Data? then cuts[0].others else 0) + Others(cuts[1..], last)
  }

  lemma {:induction false} TotalSplits(cuts: seq<Read>, last: Ending)
    ensures Total(cuts, last) == |Bytes(cuts)| + Others(cuts, last)
  {
    if cuts != [] {
      TotalSplits(cuts[1..], last);
    }
  }

  /**
   * A reading of `s` with the given end, cut in any way, during which the other stream adds at most
   * `m` bytes at any times. How much it adds before an end of file is not part of the end.
   */
  ghost predicate Reading(s: seq<Byte>, m: nat, end: Ending, cuts: seq<Read>, last: Ending) {
    Bytes(cuts) == s && Others(cuts, last) <= m && if end.Failure? then last == end else last.Eof?
  }

  /** Some such reading goes over the limit with exactly the first `k` bytes taken in. */
  predicate MayStop(counted: nat, length: nat, m: nat, end: Ending, k: nat) {
    && counted + k <= MAX_OUTPUT_BYTES < counted + k + 4096 + m
    && MAX_OUTPUT_BYTES < counted + length + m
    && (k < length || (k == length && end.Eof?))
  }

  /** Before a read failure it is always a read that goes over the limit. */
  lemma {:induction false} FitsBeforeFailure(counted: nat, cuts: seq<Read>, last: Ending)
    requires last.Failure? && counted <= MAX_OUTPUT_BYTES < counted + Total(cuts, last)
    ensures Fits(counted, cuts) < |Bytes(cuts)|
    decreases |cuts|
  {
    var more := if cuts[0].Data? then cuts[0].others + |cuts[0].bytes| else 0;
    if counted + more <= MAX_OUTPUT_BYTES {
      FitsBeforeFailure(counted + more, cuts[1..], last);
    }
  }

  /** A reading stays within the limit, or stops at one of those places. */
  lemma ReportOf(g: Grammar, progressStream: bool, c: Cursor, counted: nat, s: seq<Byte>, m: nat, end: Ending,
                 cuts: seq<Read>, last: Ending) returns (k: nat)
    requires c.Open? && counted <= MAX_OUTPUT_BYTES && Reading(s, m, end, cuts, last)
    ensures k <= |s|
    ensures
      || (counted + |s| <= MAX_OUTPUT_BYTES && Drain(g, progressStream, c, counted, cuts, last)
            == Conclude(g, progressStream, Feed(g, progressStream, c, s), end))
      || (MayStop(counted, |s|, m, end, k) && Drain(g, progressStream, c, counted, cuts, last)
            == Exceeded(Feed(g, progressStream, c, s[..k])))
  {
    TotalSplits(cuts, last);
    k := 0;
    if counted + Total(cuts, last) <= MAX_OUTPUT_BYTES {
      DrainWithin(g, progressStream, c, counted, cuts, last);
    } else {
      k := Fits(counted, cuts);
      FitsBounds(counted, cuts, last);
      DrainBeyond(g, progressStream, c, counted, cuts, last);
      if last.Failure? {
        FitsBeforeFailure(counted, cuts, last);
      }
    }
  }

  /** One byte per read. */
  function Single(s: seq<Byte>): seq<Read> {
    if s == [] then [] else [Data([s[0]], 0)] + Single(s[1..])
  }

  lemma Prepended<T>(x: T, a: seq<T>, b: seq<T>)
    ensures ([x] + a) + b == [x] + (a + b)
    ensures (([x] + a) + b)[0] == x && (([x] + a) + b)[1..] == a + b
  {
  }

  lemma SingleNext(s: seq<Byte>, rest: seq<Read>)
    requires s != []
    ensures Single(s) + rest != [] && (Single(s) + rest)[0] == Data([s[0]], 0)
    ensures (Single(s) + rest)[1..] == Single(s[1..]) + rest
  {
    var tail := Single(s[1..]);
    assert Single(s) == [Data([s[0]], 0)] + tail;
    hide Single;
    Prepended(Data([s[0]], 0), tail, rest);
  }

  /** Reads of a part without anything from the other stream, then the rest. */
  lemma {:induction false} SingleThen(counted: nat, s: seq<Byte>, rest: seq<Read>, last: Ending)
    ensures Bytes(Single(s) + rest) == s + Bytes(rest)
    ensures Others(Single(s) + rest, last) == Others(rest, last)
    ensures counted + |s| <= MAX_OUTPUT_BYTES ==> Fits(counted, Single(s) + rest) == |s| + Fits(counted + |s|, rest)
    decreases |s|
  {
    if s == [] {
      assert Single(s) + rest == rest && s + Bytes(rest) == Bytes(rest);
    } else {
      SingleNext(s, rest);
      SingleThen(counted + 1, s[1..], rest, last);
      hide Single, Bytes, Others, Fits;
      assert [s[0]] + (s[1..] + Bytes(rest)) == s + Bytes(rest);
      FirstRead(counted, Single(s) + rest, last);
    }
  }

  lemma FirstRead(counted: nat, cuts: seq<Read>, last: Ending)
    requires cuts != [] && cuts[0].Data? && cuts[0].others == 0 && |cuts[0].bytes| == 1
    ensures Bytes(cuts) == cuts[0].bytes + Bytes(cuts[1..])
    ensures Others(cuts, last) == Others(cuts[1..], last)
    ensures counted < MAX_OUTPUT_BYTES ==> Fits(counted, cuts) == 1 + Fits(counted + 1, cuts[1..])
  {
  }

  /** One read that goes over the limit, because the other stream adds all its bytes before it. */
  lemma LastRead(counted: nat, s: seq<Byte>, m: nat, size: nat, last: Ending) returns (cuts: seq<Read>)
    requires 0 < size <= 4096 && size <= |s| && MAX_OUTPUT_BYTES < counted + m + size
    requires last.Eof? ==> last.others == 0
    ensures Bytes(cuts) == s && Others(cuts, last) == m && Fits(counted, cuts) == 0
  {
    var read, after := Data(s[..size], m), s[size..];
    cuts := [read] + Single(after);
    assert cuts[1..] == Single(after) && cuts[0] == read;
    SingleThen(counted, after, [], last);
    assert Single(after) + [] == Single(after) && after + [] == after;
    assert s[..size] + after == s;
  }

  /** There is a reading that stops at each of those places: the other stream adds all of it at once. */
  lemma StopsThere(counted: nat, s: seq<Byte>, m: nat, end: Ending, k: nat) returns (cuts: seq<Read>, last: Ending)
    requires MayStop(counted, |s|, m, end, k)
    ensures Reading(s, m, end, cuts, last)
    ensures counted + Total(cuts, last) > MAX_OUTPUT_BYTES && Fits(counted, cuts) == k
  {
    if k == |s| {
      cuts, last := Single(s) + [], Eof(m);
      SingleThen(counted, s, [], last);
      assert s + [] == s;
    } else {
      last := if end.Failure? then end else Eof(0);
      var rest := LastRead(counted + k, s[k..], m, Min(4096, |s| - k), last);
      hide Bytes, Others, Fits, Single;
      SingleThen(counted, s[..k], rest, last);
      cuts := Single(s[..k]) + rest;
      assert s[..k] + s[k..] == s;
    }
    TotalSplits(cuts, last);
  }

  /** There is a reading within the limit if the bytes alone are. */
  lemma StaysWithin(counted: nat, s: seq<Byte>, m: nat, end: Ending) returns (cuts: seq<Read>, last: Ending)
    requires counted + |s| <= MAX_OUTPUT_BYTES
    ensures Reading(s, m, end, cuts, last) && counted + Total(cuts, last) <= MAX_OUTPUT_BYTES
  {
    cuts, last := Single(s) + [], if end.Failure? then end else Eof(0);
    SingleThen(counted, s, [], last);
    assert s + [] == s;
    TotalSplits(cuts, last);
  }

  /** Every place where a reading may stop leads to one report, which is that of staying within the limit, if that is possible. */
  ghost predicate Steady(g: Grammar, progressStream: bool, c: Cursor, counted: nat, s: seq<Byte>, m: nat, end: Ending) {
    && (forall j, k :: 0 <= j <= |s| && 0 <= k <= |s| && MayStop(counted, |s|, m, end, j) && MayStop(counted, |s|, m, end, k) ==>
          Exceeded(Feed(g, progressStream, c, s[..j])) == Exceeded(Feed(g, progressStream, c, s[..k])))
    && (counted + |s| <= MAX_OUTPUT_BYTES ==>
          forall k :: 0 <= k <= |s| && MayStop(counted, |s|, m, end, k) ==>
            Exceeded(Feed(g, progressStream, c, s[..k])) == Conclude(g, progressStream, Feed(g, progressStream, c, s), end))
  }

  ghost predicate AllAgree(g: Grammar, progressStream: bool, c: Cursor, counted: nat, s: seq<Byte>, m: nat, end: Ending)
    requires c.Open?
  {
    forall x, lx, y, ly :: Reading(s, m, end, x, lx) && Reading(s, m, end, y, ly) ==>
      Drain(g, progressStream, c, counted, x, lx) == Drain(g, progressStream, c, counted, y, ly)
  }

  /**
   * Exactly when the outcome of a reading depends neither on how the reads cut the bytes nor on when
   * the other stream adds its bytes, at most `m` in all: when every prefix at which the limit may be
   * noticed leads to the same report, and to that of the whole stream if it may go unnoticed.
   */
  lemma CutsAgreeBeyond(g: Grammar, progressStream: bool, c: Cursor, counted: nat, s: seq<Byte>, m: nat, end: Ending)
    requires c.Open? && counted <= MAX_OUTPUT_BYTES
    ensures AllAgree(g, progressStream, c, counted, s, m, end) <==> Steady(g, progressStream, c, counted, s, m, end)
  {
    hide Drain, Feed, Exceeded, Conclude, Reading, MayStop, Bytes, Others;
    if Steady(g, progressStream, c, counted, s, m, end) {
      forall x, lx, y, ly | Reading(s, m, end, x, lx) && Reading(s, m, end, y, ly)
        ensures Drain(g, progressStream, c, counted, x, lx) == Drain(g, progressStream, c, counted, y, ly)
      {
        var j := ReportOf(g, progressStream, c, counted, s, m, end, x, lx);
        var k := ReportOf(g, progressStream, c, counted, s, m, end, y, ly);
      }
    }
    if AllAgree(g, progressStream, c, counted, s, m, end) {
      forall j, k | 0 <= j <= |s| && 0 <= k <= |s| && MayStop(counted, |s|, m, end, j) && MayStop(counted, |s|, m, end, k)
        ensures Exceeded(Feed(g, progressStream, c, s[..j])) == Exceeded(Feed(g, progressStream, c, s[..k]))
      {
        var x, lx := ReportAt(g, progressStream, c, counted, s, m, end, j);
        var y, ly := ReportAt(g, progressStream, c, counted, s, m, end, k);
      }
      if counted + |s| <= MAX_OUTPUT_BYTES {
        forall k | 0 <= k <= |s| && MayStop(counted, |s|, m, end, k)
          ensures Exceeded(Feed(g, progressStream, c, s[..k])) == Conclude(g, progressStream, Feed(g, progressStream, c, s), end)
        {
          var x, lx := ReportAt(g, progressStream, c, counted, s, m, end, k);
          var y, ly := ReportWithin(g, progressStream, c, counted, s, m, end);
        }
      }
    }
  }

  lemma ReportAt(g: Grammar, progressStream: bool, c: Cursor, counted: nat, s: seq<Byte>, m: nat, end: Ending, k: nat)
    returns (cuts: seq<Read>, last: Ending)
    requires c.Open? && counted <= MAX_OUTPUT_BYTES && k <= |s| && MayStop(counted, |s|, m, end, k)
    ensures Reading(s, m, end, cuts, last)
    ensures Drain(g, progressStream, c, counted, cuts, last) == Exceeded(Feed(g, progressStream, c, s[..k]))
  {
    cuts, last := StopsThere(counted, s, m, end, k);
    DrainBeyond(g, progressStream, c, counted, cuts, last);
  }

  lemma ReportWithin(g: Grammar, progressStream: bool, c: Cursor, counted: nat, s: seq<Byte>, m: nat, end: Ending)
    returns (cuts: seq<Read>, last: Ending)
    requires c.Open? && counted + |s| <= MAX_OUTPUT_BYTES
    ensures Reading(s, m, end, cuts, last)
    ensures Drain(g, progressStream, c, counted, cuts, last)
         == Conclude(g, progressStream, Feed(g, progressStream, c, s), end)
  {
    cuts, last := StaysWithin(counted, s, m, end);
    DrainWithin(g, progressStream, c, counted, cuts, last);
  }

  /** The ASCII bytes of a progress line as FFmpeg writes it. */
  const SIZE_LINE: seq<Byte> := [116, 111, 116, 97, 108, 95, 115, 105, 122, 101, 61, 55]

  /** A progress line whose terminator is the last byte allowed is recorded only if a read ends there. */
  lemma CutsMatterBeyond(g: Grammar, seen: Seen)
    requires g.decode(SIZE_LINE) == Some("total_size=7")
    ensures
      var apart, together := [Data(SIZE_LINE + [LF], 0), Data([65], 0)], [Data(SIZE_LINE + [LF, 65], 0)];
      && Bytes(apart) == Bytes(together) == SIZE_LINE + [LF, 65]
      && Drain(g, true, Open(seen, []), MAX_OUTPUT_BYTES - 13, apart, Eof(0))
           == Outcome(Err(LimitExceeded), seen.(progress := Some((7, None))))
      && Drain(g, true, Open(seen, []), MAX_OUTPUT_BYTES - 13, together, Eof(0)) == Outcome(Err(LimitExceeded), seen)
  {
    var first, second, both := Data(SIZE_LINE + [LF], 0), Data([65], 0), Data(SIZE_LINE + [LF, 65], 0);
    var apart, together := [first, second], [both];
    assert apart[1..] == [second] && together[1..] == [] && [second][1..] == [];
    assert Bytes([second]) == [65];
    assert Bytes(apart) == SIZE_LINE + [LF] + [65] == SIZE_LINE + [LF, 65];
    LineTaken(g, seen, SIZE_LINE);
    SizeLineTaken(g, seen);
    assert (SIZE_LINE + [LF, 65])[..0] == [];
  }

  lemma LineTaken(g: Grammar, seen: Seen, line: seq<Byte>)
    requires Unbroken(line) && |line| <= MAX_LINE_BYTES
    ensures Feed(g, true, Open(seen, []), line + [LF]) == Taken(g, true, seen, line)
  {
    var none: seq<seq<Byte>> := [];
    assert [line][..0] == none && [LF][..0] == [];
    assert Join([line], [LF]) == [] + line + [LF] == line + [LF];
    SplitJoin([line], [LF], []);
    assert Join([line], [LF]) + [] == line + [LF];
    FeedIsByLine(g, true, seen, line + [LF]);
    hide Feed, Consume, Split;
    assert TakeLines(g, true, seen, none) == Open(seen, []);
    assert TakeLines(g, true, seen, [line]) == Taken(g, true, seen, line);
  }

  lemma SizeLineTaken(g: Grammar, seen: Seen)
    requires g.decode(SIZE_LINE) == Some("total_size=7")
    ensures Taken(g, true, seen, SIZE_LINE) == Open(seen.(progress := Some((7, None))), [])
  {
    PrefixOff("total_size=", "7");
    assert "total_size=" + "7" == "total_size=7";
    assert DecimalValue("7") == 7 by {
      assert "7"[..0] == "";
    }
  }

  // ----- The reader threads' shared record -----

  class OutputState {
    var progress: Option<(nat, Option<nat>)>
    var completed: Option<string>
    var error: Option<Fault>
    var bytes: nat
    var done: nat

    constructor ()
      ensures Recorded() == Seen(None, None) && error == None && bytes == 0 && done == 0
    {
      progress, completed, error, bytes, done := None, None, None, 0, 0;
    }

    function Recorded(): Seen
      reads this
    {
      Seen(progress, completed)
    }

    /** Interprets one line, leaving the record alone when the line is refused. */
    method ConsumeLine(g: Grammar, line: seq<Byte>) returns (r: Result<(), Fault>)
      modifies this`progress, this`completed
      ensures match Consume(g, old(Recorded()), line)
              case Ok(next) => r == Ok(()) && Recorded() == next
              case Err(fault) => r == Err(fault) && Recorded() == old(Recorded())
      ensures r.Ok? || r == Err(NotUtf8) || r == Err(SecondFile)
      ensures r == Err(NotUtf8) <==> g.decode(line).None?
      ensures r == Err(SecondFile) <==>
        Names(g, line).Some? && old(completed).Some? && Names(g, line) != old(completed)
      ensures r.Err? ==> progress == old(progress) && completed == old(completed)
      ensures r.Ok? ==>
        && progress == (if Counts(g, line).Some? then Counts(g, line) else old(progress))
        && completed == (if Names(g, line).Some? then Names(g, line) else old(completed))
    {
      r := Ok(());
      var decoded := g.decode(line);
      if decoded.None? {
        return Err(NotUtf8);
      }
      match Report(g, decoded.value) {
        case None =>
        case Some(Progress(downloaded, total)) =>
          progress := Some((downloaded, total));
        case Some(CompletedFile(path)) =>
          if completed.Some? && completed.value != path {
            return Err(SecondFile);
          }
          completed := Some(path);
      }
    }

    /** Takes one chunk byte by byte into the open line. */
    method TakeChunk(g: Grammar, progressStream: bool, open: seq<Byte>, chunk: seq<Byte>)
      returns (r: Result<(), Fault>, line: seq<Byte>)
      modifies this`progress, this`completed
      ensures match Feed(g, progressStream, Open(old(Recorded()), open), chunk)
              case Open(seen, rest) => r == Ok(()) && Recorded() == seen && line == rest
              case Halted(fault, seen) => r == Err(fault) && Recorded() == seen
    {
      ghost var start := Open(Recorded(), open);
      r, line := Ok(()), open;
      var j := 0;
      while j < |chunk|
        invariant 0 <= j <= |chunk| && r == Ok(())
        invariant Feed(g, progressStream, start, chunk[..j]) == Open(Recorded(), line)
      {
        ghost var now := Open(Recorded(), line);
        FeedNext(g, progressStream, start, chunk, j);
        if chunk[j] == LF || chunk[j] == CR {
          if progressStream {
            r := ConsumeLine(g, line);
            if r.Err? {
              return;
            }
          }
          line := [];
        } else {
          if |line| >= MAX_LINE_BYTES {
            return Err(LimitExceeded), line;
          }
          line := line + [chunk[j]];
        }
        j := j + 1;
      }
      assert chunk[..j] == chunk;
    }

    /** The reading loop; `cuts` is every read's outcome before the last one. */
    method ReadOutput(g: Grammar, progressStream: bool, cuts: seq<Read>, last: Ending) returns (r: Result<(), Fault>)
      modifies this`progress, this`completed, this`bytes
      ensures Outcome(r, Recorded()) == Drain(g, progressStream, Open(old(Recorded()), []), old(bytes), cuts, last)
    {
      ghost var whole := Drain(g, progressStream, Open(Recorded(), []), bytes, cuts, last);
      var line := [];
      var i := 0;
      while i < |cuts|
        invariant 0 <= i <= |cuts|
        invariant Drain(g, progressStream, Open(Recorded(), line), bytes, cuts[i..], last) == whole
      {
        assert cuts[i..][0] == cuts[i] && cuts[i..][1..] == cuts[i + 1..];
        if cuts[i].Data? {
          bytes := SaturatingAdd(SaturatingAdd(bytes, cuts[i].others), |cuts[i].bytes|);
          if bytes > MAX_OUTPUT_BYTES {
            return Err(LimitExceeded);
          }
          r, line := TakeChunk(g, progressStream, line, cuts[i].bytes);
          if r.Err? {
            return;
          }
        }
        i := i + 1;
      }
      match last {
        case Failure(message) =>
          return Err(ReadFailed(message));
        case Eof(others) =>
          bytes := SaturatingAdd(bytes, others);
          if bytes > MAX_OUTPUT_BYTES {
            return Err(LimitExceeded);
          }
          if progressStream && line != [] {
            r := ConsumeLine(g, line);
            return;
          }
          return Ok(());
      }
    }

    /** The end of a reader: the first error of either stream is kept, and the reader counts as done. */
    method Finish(result: Result<(), Fault>)
      modifies this`error, this`done
      ensures done == old(done) + 1
      ensures old(error).Some? || result.Ok? ==> error == old(error)
      ensures old(error).None? && result.Err? ==> error == Some(result.error)
    {
      if result.Err? && error.None? {
        error := Some(result.error);
      }
      done := done + 1;
    }

    /** A reader thread; `other` is the result of the other stream's reader if that one ends first. */
    method ReaderThread(g: Grammar, progressStream: bool, cuts: seq<Read>, last: Ending, other: Option<Result<(), Fault>>)
      modifies this
      ensures
        var o := Drain(g, progressStream, Open(old(Recorded()), []), old(bytes), cuts, last);
        && Recorded() == o.seen
        && done == old(done) + (if other.Some? then 2 else 1)
        && error == if old(error).Some? then old(error)
                    else if other.Some? && other.value.Err? then Some(other.value.error)
                    else if o.result.Err? then Some(o.result.error)
                    else None
    {
      var result := ReadOutput(g, progressStream, cuts, last);
      if other.Some? {
        Finish(other.value);
      }
      Finish(result);
    }
  }

  lemma FeedNext(g: Grammar, progressStream: bool, c: Cursor, s: seq<Byte>, j: nat)
    requires j < |s|
    ensures Feed(g, progressStream, c, s[..j + 1]) == Step(g, progressStream, Feed(g, progressStream, c, s[..j]), s[j])
    ensures Step(g, progressStream, Feed(g, progressStream, c, s[..j]), s[j]).Halted? ==>
      Feed(g, progressStream, c, s) == Step(g, progressStream, Feed(g, progressStream, c, s[..j]), s[j])
  {
    assert s[..j + 1][..j] == s[..j];
    var next := Feed(g, progressStream, c, s[..j + 1]);
    if next.Halted? {
      FeedConcat(g, progressStream, c, s[..j + 1], s[j + 1..]);
      HaltedStays(g, progressStream, next, s[j + 1..]);
      assert s[..j + 1] + s[j + 1..] == s;
    }
  }
}
