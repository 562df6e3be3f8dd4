/**
 The ranked list of recording candidates in an AcoustID response: the best support per
 recording, sorted and cut to 256, shown to depend only on the set of reported facts.
 */
module AcoustIdRanking {
  import opened Basics
  import opened Text
  import opened Sorting

  const MAX_CANDIDATES: nat := 256
  const UUID_LENGTH: nat := 36

  // ----- Facts -----

  /** A score in zero to one as its place in the total order of floats; `None` is any other value. */
  type Score = Option<int>

  datatype Result = Result(id: Option<string>, score: Score, recordings: seq<Option<string>>)

  datatype Candidate = Candidate(recording: string, result: string, score: int)

  predicate IsHex(c: char) {
    '0' <= c <= '9' || 'a' <= c <= 'f' || 'A' <= c <= 'F'
  }

  predicate UuidShape(s: string) {
    |s| == UUID_LENGTH && forall i :: 0 <= i < |s| ==>
      if i == 8 || i == 13 || i == 18 || i == 23 then s[i] == '-' else IsHex(s[i])
  }

  /** Five groups of 8, 4, 4, 4 and 12 hexadecimal digits joined by hyphens. */
  ghost predicate Groups(s: string, a: string, b: string, c: string, d: string, e: string) {
    && |a| == 8 && |b| == 4 && |c| == 4 && |d| == 4 && |e| == 12
    && s == a + "-" + b + "-" + c + "-" + d + "-" + e
    && forall x :: x in a || x in b || x in c || x in d || x in e ==> x in "0123456789abcdefABCDEF"
  }

  /** What the code takes for a UUID is the text of one. */
  lemma UuidShapeMeaning(s: string)
    ensures UuidShape(s) <==> exists a, b, c, d, e :: Groups(s, a, b, c, d, e)
  {
    if UuidShape(s) {
      UuidHasGroups(s);
      assert Groups(s, s[..8], s[9..13], s[14..18], s[19..23], s[24..]);
    }
    hide UuidShape, Groups;
    if a, b, c, d, e :| Groups(s, a, b, c, d, e) {
      GroupsAreUuid(s, a, b, c, d, e);
    }
  }

  lemma UuidHasGroups(s: string)
    requires UuidShape(s)
    ensures Groups(s, s[..8], s[9..13], s[14..18], s[19..23], s[24..])
  {
    var a, b, c, d, e := s[..8], s[9..13], s[14..18], s[19..23], s[24..];
    hide IsHex;
    assert s == a + "-" + b + "-" + c + "-" + d + "-" + e;
    forall x | x in a || x in b || x in c || x in d || x in e
      ensures x in "0123456789abcdefABCDEF"
    {
      var i :| 0 <= i < 36 && i != 8 && i != 13 && i != 18 && i != 23 && s[i] == x;
      HexAt(s, i);
      HexDigits(x);
    }
  }

  lemma HexAt(s: string, i: nat)
    requires UuidShape(s) && i < 36 && i != 8 && i != 13 && i != 18 && i != 23
    ensures IsHex(s[i])
  {
  }

  lemma GroupsAreUuid(s: string, a: string, b: string, c: string, d: string, e: string)
    requires Groups(s, a, b, c, d, e)
    ensures UuidShape(s)
  {
    hide IsHex;
    forall i | 0 <= i < 36 && i != 8 && i != 13 && i != 18 && i != 23
      ensures IsHex(s[i])
    {
      HexDigits(s[i]);
      assert s[i] == if i < 8 then a[i] else if i < 13 then b[i - 9] else if i < 18 then c[i - 14]
                     else if i < 23 then d[i - 19] else e[i - 24];
    }
  }

  lemma HexDigits(x: char)
    ensures x in "0123456789abcdefABCDEF" <==> IsHex(x)
  {
    var all := "0123456789abcdefABCDEF";
    if '0' <= x <= '9' {
      assert all[x as int - '0' as int] == x;
    } else if 'a' <= x <= 'f' {
      assert all[10 + (x as int - 'a' as int)] == x;
    } else if 'A' <= x <= 'F' {
      assert all[16 + (x as int - 'A' as int)] == x;
    }
  }

  function CanonicalUuid(s: string): Option<string> {
    if UuidShape(s) then Some(LowerAll(s)) else None
  }

  ghost predicate SameLetters(s: string, t: string) {
    |s| == |t| && forall i :: 0 <= i < |s| ==> Lower(t[i]) == Lower(s[i])
  }

  lemma SameCanonical(s: string, t: string)
    requires UuidShape(s) && SameLetters(s, t)
    ensures UuidShape(t) && LowerAll(t) == LowerAll(s)
  {
    forall i | 0 <= i < |s|
      ensures (IsHex(s[i]) ==> IsHex(t[i])) && (s[i] == '-' ==> t[i] == '-')
    {
      assert Lower(t[i]) == Lower(s[i]);
    }
  }

  /** The canonical form is a fixed point, and spellings that differ only in letter case share it. */
  lemma CanonicalForm(s: string, t: string)
    requires CanonicalUuid(s).Some?
    ensures CanonicalUuid(CanonicalUuid(s).value) == CanonicalUuid(s)
    ensures SameLetters(s, t) <==> CanonicalUuid(t) == CanonicalUuid(s)
  {
    SameCanonical(s, LowerAll(s));
    if SameLetters(s, t) {
      SameCanonical(s, t);
    }
    if CanonicalUuid(t) == CanonicalUuid(s) {
      assert LowerAll(t) == LowerAll(s);
      forall i | 0 <= i < |s|
        ensures Lower(t[i]) == Lower(s[i])
      {
        assert LowerAll(t)[i] == LowerAll(s)[i];
      }
    }
  }

  /** The candidate one recording of one result contributes, if both ids and the score are valid. */
  function Contribution(r: Result, recording: Option<string>): Option<Candidate> {
    if r.id.None? || r.score.None? || recording.None? then None
    else
      var result, id := CanonicalUuid(r.id.value), CanonicalUuid(recording.value);
      if result.None? || id.None? then None else Some(Candidate(id.value, result.value, r.score.value))
  }

  ghost predicate Reports(results: seq<Result>, c: Candidate) {
    exists i, j :: 0 <= i < |results| && 0 <= j < |results[i].recordings|
                   && Contribution(results[i], results[i].recordings[j]) == Some(c)
  }

  // ----- The two orders -----

  predicate Better(a: Candidate, b: Candidate) {
    a.score > b.score || (a.score == b.score && Less(a.result, b.result))
  }

  predicate Before(a: Candidate, b: Candidate) {
    || a.score > b.score
    || (a.score == b.score && (Less(a.recording, b.recording)
                               || (a.recording == b.recording && Less(a.result, b.result))))
  }

  lemma BeforeOrder(a: Candidate, b: Candidate, c: Candidate)
    ensures Before(a, b) || a == b || Before(b, a)
    ensures !(Before(a, b) && Before(b, a))
    ensures Before(a, b) && Before(b, c) ==> Before(a, c)
  {
    LessTotal(a.recording, b.recording);
    LessTotal(a.result, b.result);
    if Before(a, b) && Before(b, c) && a.score == c.score {
      if Less(a.recording, b.recording) && Less(b.recording, c.recording) {
        LessTrans(a.recording, b.recording, c.recording);
      }
      if Less(a.result, b.result) && Less(b.result, c.result) {
        LessTrans(a.result, b.result, c.result);
      }
    }
  }

  lemma BetterOrder(a: Candidate, b: Candidate, c: Candidate)
    requires a.recording == b.recording == c.recording
    ensures Better(a, b) || a == b || Better(b, a)
    ensures !(Better(a, b) && Better(b, a))
    ensures Better(a, b) && Better(b, c) ==> Better(a, c)
  {
    LessTotal(a.result, b.result);
    if Less(a.result, b.result) && Less(b.result, c.result) {
      LessTrans(a.result, b.result, c.result);
    }
  }

  // ----- The specification: a property of the set of facts alone -----

  /** `c` has its recording's highest score and, among those, the least supporting result id. */
  ghost predicate Best(results: seq<Result>, c: Candidate) {
    && Reports(results, c)
    && forall d :: Reports(results, d) && d.recording == c.recording ==> d == c || Better(c, d)
  }

  ghost predicate Sorted(s: seq<Candidate>) {
    Ordered(s, Before)
  }

  /** The first 256, in rank order, of the best candidates of all recordings. */
  ghost predicate Ranking(results: seq<Result>, out: seq<Candidate>) {
    && Sorted(out)
    && (forall c :: c in out ==> Best(results, c))
    && |out| <= MAX_CANDIDATES
    && (forall c :: Best(results, c) && c !in out ==>
          |out| == MAX_CANDIDATES && forall d :: d in out ==> Before(d, c))
  }

  /** A scored result with a well-formed id names a well-formed recording id. */
  ghost predicate Links(results: seq<Result>, recording: string, result: string, score: int) {
    exists r, x, y ::
      && r in results && r.id == Some(x) && r.score == Some(score) && Some(y) in r.recordings
      && UuidShape(x) && UuidShape(y) && recording == LowerAll(y) && result == LowerAll(x)
  }

  lemma LinksAreReports(results: seq<Result>, c: Candidate)
    ensures Reports(results, c) <==> Links(results, c.recording, c.result, c.score)
  {
    if Reports(results, c) {
      ReportIsLink(results, c);
    }
    if Links(results, c.recording, c.result, c.score) {
      LinkIsReport(results, c);
    }
  }

  lemma ReportIsLink(results: seq<Result>, c: Candidate)
    requires Reports(results, c)
    ensures Links(results, c.recording, c.result, c.score)
  {
    var i, j :| 0 <= i < |results| && 0 <= j < |results[i].recordings|
                && Contribution(results[i], results[i].recordings[j]) == Some(c);
    var r, y := results[i], results[i].recordings[j];
    assert r in results && Some(y.value) in r.recordings && r.id == Some(r.id.value);
    hide UuidShape, LowerAll, Reports;
  }

  lemma LinkIsReport(results: seq<Result>, c: Candidate)
    requires Links(results, c.recording, c.result, c.score)
    ensures Reports(results, c)
  {
    var r, x, y :|
      && r in results && r.id == Some(x) && r.score == Some(c.score) && Some(y) in r.recordings
      && UuidShape(x) && UuidShape(y) && c.recording == LowerAll(y) && c.result == LowerAll(x);
    hide UuidShape, LowerAll, Links;
    var i :| 0 <= i < |results| && results[i] == r;
    var j :| 0 <= j < |r.recordings| && r.recordings[j] == Some(y);
    assert Contribution(results[i], results[i].recordings[j]) == Some(c);
  }

  /**
   What a ranking is, link by link. Each entry is a link of the response; entries fall in score, and at
   equal scores rise by recording. Whatever else links a recording, its entry has a higher score or the
   same one with a lesser or equal result id; a recording is without an entry only when 256 others have
   a higher score than any of its links, or the same one and a lesser recording id.
   */
  lemma RankingMeaning(results: seq<Result>, out: seq<Candidate>)
    requires Ranking(results, out)
    ensures |out| <= 256
    ensures forall c :: c in out ==> Links(results, c.recording, c.result, c.score)
    ensures forall i, j :: 0 <= i < j < |out| ==>
      out[i].score > out[j].score || (out[i].score == out[j].score && Less(out[i].recording, out[j].recording))
    ensures forall c, result, score :: c in out && Links(results, c.recording, result, score) ==>
      c.score > score || (c.score == score && (c.result == result || Less(c.result, result)))
    ensures forall recording, result, score :: Links(results, recording, result, score) ==>
      || (exists c :: c in out && c.recording == recording)
      || (|out| == 256 && forall c :: c in out ==>
            c.score > score || (c.score == score && Less(c.recording, recording)))
  {
    hide Links;
    forall c | c in out
      ensures Links(results, c.recording, c.result, c.score)
    {
      LinksAreReports(results, c);
    }
    forall i, j | 0 <= i < j < |out|
      ensures out[i].recording != out[j].recording
    {
      OnePerRecording(results, out, i, j);
    }
    forall recording, result, score | Links(results, recording, result, score)
      ensures forall c :: c in out && c.recording == recording ==>
        c.score > score || (c.score == score && (c.result == result || Less(c.result, result)))
      ensures (exists c :: c in out && c.recording == recording) || (|out| == 256 && forall c :: c in out ==>
        c.score > score || (c.score == score && Less(c.recording, recording)))
    {
      var d := Candidate(recording, result, score);
      LinksAreReports(results, d);
      if !exists c :: c in out && c.recording == recording {
        var b := BestOf(results, d);
        assert b !in out;
      }
    }
  }

  /** Every reported recording has a best candidate. */
  lemma BestOf(results: seq<Result>, d: Candidate) returns (b: Candidate)
    requires Reports(results, d)
    ensures Best(results, b) && b.recording == d.recording
  {
    var rivals := set i, j | 0 <= i < |results| && 0 <= j < |results[i].recordings|
      && Contribution(results[i], results[i].recordings[j]).Some?
      && Contribution(results[i], results[i].recordings[j]).value.recording == d.recording
      :: Contribution(results[i], results[i].recordings[j]).value;
    assert d in rivals;
    b := BestAmong(rivals, d.recording);
    assert b in rivals;
  }

  lemma {:induction false} BestAmong(rivals: set<Candidate>, recording: string) returns (b: Candidate)
    requires rivals != {} && forall c :: c in rivals ==> c.recording == recording
    ensures b in rivals && forall c :: c in rivals ==> c == b || Better(b, c)
    decreases rivals
  {
    var x :| x in rivals;
    b := x;
    if rivals != {x} {
      var y := BestAmong(rivals - {x}, recording);
      BetterOrder(x, y, x);
      if !Better(x, y) {
        b := y;
      }
      forall c | c in rivals
        ensures c == b || Better(b, c)
      {
        BetterOrder(b, y, c);
      }
    }
  }

  ghost predicate SameFacts(a: seq<Result>, b: seq<Result>) {
    forall c :: Reports(a, c) <==> Reports(b, c)
  }

  /** Each recording appears once in a ranking. */
  lemma OnePerRecording(results: seq<Result>, out: seq<Candidate>, i: nat, j: nat)
    requires Ranking(results, out) && i < j < |out|
    ensures out[i].recording != out[j].recording
  {
    var a, b := out[i], out[j];
    assert a in out && b in out;
    BeforeOrder(a, b, a);
    if a.recording == b.recording {
      BetterOrder(a, b, a);
    }
  }

  lemma BestOfSameFacts(a: seq<Result>, b: seq<Result>, c: Candidate)
    requires SameFacts(a, b)
    ensures Best(a, c) <==> Best(b, c)
  {
  }

  /** Rankings of equal facts agree in every position up to any common length. */
  lemma {:induction false} RankingsAgree(a: seq<Result>, b: seq<Result>, x: seq<Candidate>, y: seq<Candidate>, n: nat)
    requires SameFacts(a, b) && Ranking(a, x) && Ranking(b, y) && n <= |x| && n <= |y|
    ensures x[..n] == y[..n]
    decreases n
  {
    if n > 0 {
      RankingsAgree(a, b, x, y, n - 1);
      var c, d := x[n - 1], y[n - 1];
      assert c in x && d in y;
      BestOfSameFacts(a, b, c);
      BestOfSameFacts(a, b, d);
      hide Best, SameFacts;
      BeforeOrder(c, d, c);
      NotLater(b, y, n - 1, x);
      NotLater(a, x, n - 1, y);
      assert x[..n] == x[..n - 1] + [c] && y[..n] == y[..n - 1] + [d];
    }
  }

  /** The first entry after a common prefix cannot be beaten by what another sorted list has there. */
  lemma NotLater(results: seq<Result>, out: seq<Candidate>, k: nat, other: seq<Candidate>)
    requires Ranking(results, out) && k < |out|
    requires k < |other| && other[..k] == out[..k] && Sorted(other) && Best(results, other[k])
    ensures !Before(other[k], out[k])
  {
    var c := other[k];
    assert out[k] in out;
    BeforeOrder(c, out[k], c);
    if Before(c, out[k]) && c in out {
      var i :| 0 <= i < |out| && out[i] == c;
      BeforeOrder(out[i], out[k], c);
      BeforeOrder(c, c, c);
    }
  }

  /** The ranking is a function of the facts: equal facts, however ordered, give equal rankings. */
  lemma RankingUnique(a: seq<Result>, b: seq<Result>, x: seq<Candidate>, y: seq<Candidate>)
    requires SameFacts(a, b) && Ranking(a, x) && Ranking(b, y)
    ensures x == y
  {
    RankingsAgree(a, b, x, y, if |x| <= |y| then |x| else |y|);
    if |x| < |y| {
      assert y[|x|] in y;
      BestOfSameFacts(a, b, y[|x|]);
      NoneLeftOut(a, x, y);
    } else if |y| < |x| {
      assert x[|y|] in x;
      BestOfSameFacts(a, b, x[|y|]);
      NoneLeftOut(b, y, x);
    }
    assert x[..|x|] == x && y[..|y|] == y;
  }

  /** A ranking that is shorter than the limit has left no best candidate out. */
  lemma NoneLeftOut(results: seq<Result>, x: seq<Candidate>, y: seq<Candidate>)
    requires Ranking(results, x) && |x| < |y| <= MAX_CANDIDATES && Sorted(y)
    requires x == y[..|x|]
    ensures !Best(results, y[|x|])
  {
    var c := y[|x|];
    if c in x {
      var i :| 0 <= i < |x| && x[i] == c;
      assert y[i] == c && Before(y[i], c);
      BeforeOrder(c, c, c);
    }
  }

  // ----- Reordering a response changes no fact -----

  /** Any permutation of the results, and of the recordings inside each result. */
  ghost predicate Reordered(a: seq<Result>, b: seq<Result>) {
    exists m: seq<Result> ::
      && multiset(a) == multiset(m)
      && |m| == |b|
      && forall i :: 0 <= i < |b| ==>
           && m[i].id == b[i].id && m[i].score == b[i].score
           && multiset(m[i].recordings) == multiset(b[i].recordings)
  }

  /** Every recording reported in `a` is reported in `b` under the same id and score. */
  ghost predicate Covered(a: seq<Result>, b: seq<Result>) {
    forall r, x :: r in a && x in r.recordings ==>
      exists s :: s in b && s.id == r.id && s.score == r.score && x in s.recordings
  }

  lemma CoveredFacts(a: seq<Result>, b: seq<Result>, c: Candidate)
    requires Covered(a, b) && Reports(a, c)
    ensures Reports(b, c)
  {
    var i, j :| 0 <= i < |a| && 0 <= j < |a[i].recordings|
                && Contribution(a[i], a[i].recordings[j]) == Some(c);
    assert a[i] in a && a[i].recordings[j] in a[i].recordings;
    var s :| s in b && s.id == a[i].id && s.score == a[i].score && a[i].recordings[j] in s.recordings;
    var k :| 0 <= k < |b| && b[k] == s;
    var l :| 0 <= l < |s.recordings| && s.recordings[l] == a[i].recordings[j];
    assert Contribution(b[k], b[k].recordings[l]) == Some(c);
  }

  lemma ReorderedCovers(a: seq<Result>, m: seq<Result>, b: seq<Result>)
    requires multiset(a) == multiset(m) && |m| == |b|
    requires forall i :: 0 <= i < |b| ==>
      && m[i].id == b[i].id && m[i].score == b[i].score
      && multiset(m[i].recordings) == multiset(b[i].recordings)
    ensures Covered(a, b) && Covered(b, a)
  {
    forall r, x | r in a && x in r.recordings
      ensures exists s :: s in b && s.id == r.id && s.score == r.score && x in s.recordings
    {
      assert r in multiset(m);
      var k :| 0 <= k < |m| && m[k] == r;
      assert x in multiset(b[k].recordings);
      assert b[k] in b;
    }
    forall r, x | r in b && x in r.recordings
      ensures exists s :: s in a && s.id == r.id && s.score == r.score && x in s.recordings
    {
      var k :| 0 <= k < |b| && b[k] == r;
      assert x in multiset(m[k].recordings);
      assert m[k] in multiset(a);
    }
  }

  lemma ReorderedFacts(a: seq<Result>, b: seq<Result>)
    requires Reordered(a, b)
    ensures SameFacts(a, b)
  {
    var m: seq<Result> :|
      && multiset(a) == multiset(m)
      && |m| == |b|
      && forall i :: 0 <= i < |b| ==>
           && m[i].id == b[i].id && m[i].score == b[i].score
           && multiset(m[i].recordings) == multiset(b[i].recordings);
    ReorderedCovers(a, m, b);
    hide Covered, Reports;
    forall c
      ensures Reports(a, c) <==> Reports(b, c)
    {
      if Reports(a, c) {
        CoveredFacts(a, b, c);
      }
      if Reports(b, c) {
        CoveredFacts(b, a, c);
      }
    }
  }

  /** Any two rankings of a response and of a reordering of it are the same list. */
  lemma OrderIndependent(a: seq<Result>, b: seq<Result>, x: seq<Candidate>, y: seq<Candidate>)
    requires Reordered(a, b) && Ranking(a, x) && Ranking(b, y)
    ensures x == y
  {
    ReorderedFacts(a, b);
    RankingUnique(a, b, x, y);
  }

  // ----- The computation -----

  /** `best` holds, for each recording seen, its best candidate. */
  ghost predicate Champions(best: map<string, Candidate>, seen: set<Candidate>) {
    && (forall k :: k in best ==>
          && best[k].recording == k && best[k] in seen
          && forall d :: d in seen && d.recording == k ==> d == best[k] || Better(best[k], d))
    && (forall d :: d in seen ==> d.recording in best)
  }

  function Absorb(best: map<string, Candidate>, c: Candidate): map<string, Candidate> {
    if c.recording !in best || Better(c, best[c.recording]) then best[c.recording := c] else best
  }

  lemma AbsorbKeepsChampions(best: map<string, Candidate>, seen: set<Candidate>, c: Candidate)
    requires Champions(best, seen)
    ensures Champions(Absorb(best, c), seen + {c})
  {
    if c.recording in best {
      var b := best[c.recording];
      forall d | d in seen && d.recording == c.recording
        ensures Better(c, b) ==> d == c || Better(c, d)
        ensures !Better(c, b) ==> c == b || Better(b, c)
      {
        BetterOrder(c, b, d);
      }
      BetterOrder(c, b, b);
    }
  }

  /** Reported by a result before `i`, or by the first `j` recordings of result `i`. */
  ghost predicate ReportsUpTo(results: seq<Result>, i: nat, j: nat, c: Candidate) {
    exists p, q :: 0 <= p < |results| && 0 <= q < |results[p].recordings| && (p < i || (p == i && q < j))
                   && Contribution(results[p], results[p].recordings[q]) == Some(c)
  }

  lemma NextRecording(results: seq<Result>, i: nat, j: nat, c: Candidate)
    requires i < |results| && j < |results[i].recordings|
    ensures ReportsUpTo(results, i, j + 1, c)
      <==> ReportsUpTo(results, i, j, c) || Contribution(results[i], results[i].recordings[j]) == Some(c)
  {
  }

  lemma NextResult(results: seq<Result>, i: nat, c: Candidate)
    requires i < |results|
    ensures ReportsUpTo(results, i + 1, 0, c) <==> ReportsUpTo(results, i, |results[i].recordings|, c)
  {
  }

  ghost predicate Collected(results: seq<Result>, i: nat, j: nat, seen: set<Candidate>) {
    forall c :: c in seen <==> ReportsUpTo(results, i, j, c)
  }

  /** The recordings of one result, merged into the best candidates so far. */
  method AbsorbResult(results: seq<Result>, i: nat, best0: map<string, Candidate>, ghost seen0: set<Candidate>)
    returns (best: map<string, Candidate>, ghost seen: set<Candidate>)
    requires i < |results| && Champions(best0, seen0) && Collected(results, i, 0, seen0)
    ensures Champions(best, seen) && Collected(results, i + 1, 0, seen)
  {
    hide ReportsUpTo, Champions, Better;
    best, seen := best0, seen0;
    var r := results[i];
    forall c ensures ReportsUpTo(results, i + 1, 0, c) <==> ReportsUpTo(results, i, |r.recordings|, c) {
      NextResult(results, i, c);
    }
    var id := if r.id.None? then None else CanonicalUuid(r.id.value);
    if id.None? || r.score.None? {
      forall c ensures ReportsUpTo(results, i, |r.recordings|, c) <==> ReportsUpTo(results, i, 0, c) {
        NothingReported(results, i, c);
      }
      return;
    }
    var j := 0;
    while j < |r.recordings|
      invariant 0 <= j <= |r.recordings|
      invariant Champions(best, seen) && Collected(results, i, j, seen)
    {
      forall c ensures ReportsUpTo(results, i, j + 1, c)
        <==> ReportsUpTo(results, i, j, c) || Contribution(r, r.recordings[j]) == Some(c)
      {
        NextRecording(results, i, j, c);
      }
      if r.recordings[j].Some? {
        var recording := CanonicalUuid(r.recordings[j].value);
        if recording.Some? {
          var candidate := Candidate(recording.value, id.value, r.score.value);
          AbsorbKeepsChampions(best, seen, candidate);
          if candidate.recording !in best || Better(candidate, best[candidate.recording]) {
            best := best[candidate.recording := candidate];
          }
          seen := seen + {candidate};
        }
      }
      j := j + 1;
    }
  }

  lemma NothingReported(results: seq<Result>, i: nat, c: Candidate)
    requires i < |results|
    requires results[i].id.None? || CanonicalUuid(results[i].id.value).None? || results[i].score.None?
    ensures ReportsUpTo(results, i, |results[i].recordings|, c) <==> ReportsUpTo(results, i, 0, c)
  {
    assert forall x :: Contribution(results[i], x).None?;
  }

  /** The fold over results and recordings, then the sort and the cut. */
  method RankCandidates(results: seq<Result>) returns (out: seq<Candidate>)
    ensures Ranking(results, out)
  {
    var best: map<string, Candidate> := map[];
    ghost var seen: set<Candidate> := {};
    var i := 0;
    while i < |results|
      invariant 0 <= i <= |results|
      invariant Champions(best, seen) && Collected(results, i, 0, seen)
    {
      best, seen := AbsorbResult(results, i, best, seen);
      i := i + 1;
    }
    assert forall c :: Reports(results, c) <==> c in seen;
    hide Collected;
    var ranked := SortChampions(best);
    ChampionsRanked(results, best, seen, ranked);
    out := if |ranked| > MAX_CANDIDATES then ranked[..MAX_CANDIDATES] else ranked;
  }

  method SortChampions(best: map<string, Candidate>) returns (ranked: seq<Candidate>)
    requires forall k :: k in best ==> best[k].recording == k
    ensures Sorted(ranked) && forall c :: c in ranked <==> c in best.Values
  {
    ranked := [];
    var rest := best.Keys;
    while rest != {}
      invariant rest <= best.Keys
      invariant Sorted(ranked)
      invariant forall c :: c in ranked <==> exists k :: k in best && k !in rest && best[k] == c
      decreases rest
    {
      var k :| k in rest;
      forall a, b, c | Before(a, b) && Before(b, c) ensures Before(a, c) {
        BeforeOrder(a, b, c);
      }
      forall d | d in ranked ensures Before(d, best[k]) || Before(best[k], d) {
        BeforeOrder(d, best[k], d);
      }
      InsertOrdered(ranked, best[k], Before);
      ranked := Insert(ranked, best[k], Before);
      rest := rest - {k};
    }
  }

  lemma ChampionsRanked(results: seq<Result>, best: map<string, Candidate>, seen: set<Candidate>,
                        ranked: seq<Candidate>)
    requires Champions(best, seen) && forall c :: Reports(results, c) <==> c in seen
    requires Sorted(ranked) && forall c :: c in ranked <==> c in best.Values
    ensures Ranking(results, if |ranked| > MAX_CANDIDATES then ranked[..MAX_CANDIDATES] else ranked)
  {
    forall c
      ensures Best(results, c) <==> c in ranked
    {
      if Best(results, c) {
        var b := best[c.recording];
        assert Reports(results, b);
        BetterOrder(b, c, c);
        assert c == b;
      }
    }
    var out := if |ranked| > MAX_CANDIDATES then ranked[..MAX_CANDIDATES] else ranked;
    forall c, d | Best(results, c) && c !in out && d in out
      ensures Before(d, c)
    {
      var i :| 0 <= i < |out| && out[i] == d;
      var j :| 0 <= j < |ranked| && ranked[j] == c;
      assert i < j;
    }
  }
}
