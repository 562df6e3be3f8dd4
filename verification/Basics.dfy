/** Shared vocabulary: optional values, bytes, and facts about slices of sequences. */
module Basics {

  datatype Option<+T> = None | Some(value: T)

  datatype Result<+T, +E> = Ok(value: T) | Err(error: E)

  type Byte = b: int | 0 <= b < 256

  /** The sequence `s` with `chunk` written over it from position `at`. */
  function WriteAt(s: seq<Byte>, at: nat, chunk: seq<Byte>): (r: seq<Byte>)
    requires at + |chunk| <= |s|
    ensures |r| == |s|
    ensures r[at..at + |chunk|] == chunk
    ensures forall k :: 0 <= k < |s| && !(at <= k < at + |chunk|) ==> r[k] == s[k]
  {
    s[..at] + chunk + s[at + |chunk|..]
  }

  /** A slice disjoint from the written interval is unchanged. */
  lemma WriteElsewhere(s: seq<Byte>, at: nat, chunk: seq<Byte>, lo: nat, hi: nat)
    requires at + |chunk| <= |s|
    requires lo <= hi <= |s|
    requires hi <= at || at + |chunk| <= lo
    ensures WriteAt(s, at, chunk)[lo..hi] == s[lo..hi]
  {
    var r := WriteAt(s, at, chunk);
    assert forall k :: lo <= k < hi ==> r[k] == s[k];
  }

  /** Writing the next part of `whole` directly after the part already written. */
  lemma WriteExtends(s: seq<Byte>, base: nat, whole: seq<Byte>, done: nat, n: nat)
    requires base + |whole| <= |s|
    requires done + n <= |whole|
    requires s[base..base + done] == whole[..done]
    ensures WriteAt(s, base + done, whole[done..done + n])[base..base + done + n] == whole[..done + n]
  {
    var r := WriteAt(s, base + done, whole[done..done + n]);
    var left, right := r[base..base + done + n], whole[..done + n];
    forall k | 0 <= k < |right|
      ensures left[k] == right[k]
    {
      if k < done {
        assert r[base + k] == s[base + k];
        assert s[base..base + done][k] == whole[..done][k];
      } else {
        assert r[base + done..base + done + n][k - done] == whole[done..done + n][k - done];
      }
    }
  }

  /** The parts of a parsed URL that the code inspects; `length` is that of its serialization. */
  datatype Url = Url(
    scheme: string,
    username: string,
    password: Option<string>,
    host: Option<string>,
    port: Option<nat>,
    path: string,
    query: Option<string>,
    fragment: Option<string>,
    nonPublicHost: bool,
    length: nat)

  /** The HTTP statuses that redirect. */
  predicate Redirects(status: nat): (r: bool)
    ensures r <==> 301 <= status <= 308 && !(304 <= status <= 306)
  {
    status == 301 || status == 302 || status == 303 || status == 307 || status == 308
  }

  predicate EndsWith(s: string, suffix: string) {
    |suffix| <= |s| && s[|s| - |suffix|..] == suffix
  }

  function Min(a: nat, b: nat): nat {
    if a <= b then a else b
  }

  lemma {:induction false} SubsetSize<T>(a: set<T>, b: set<T>)
    requires a <= b
    ensures |a| <= |b|
    decreases a
  {
    if a != {} {
      var x :| x in a;
      SubsetSize(a - {x}, b - {x});
    }
  }
}
