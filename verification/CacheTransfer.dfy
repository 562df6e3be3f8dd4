/**
 The two byte loops around the cache: `fetch_range`, which brings one block from the origin
 under a strong validator, and `serve`, which sends a client the range it asked for.
 */
module CacheTransfer {
  import opened Basics
  import opened ByteRanges
  import opened Text
  import opened PlaybackLedger
  import opened CacheProtocol
  import CacheSafety

  const MAX_REDIRECTS: nat := 3
  const MAX_URL: nat := 6400
  const READ_BUFFER: nat := 64 * 1024

  // ----- Fetching one block -----

  /** One reply of the origin. A redirect carries its target once joined, if that worked. */
  datatype Reply =
    | NoReply
    | Reply(
        status: nat,
        location: Option<Url>,
        encoding: Option<string>,
        etag: Option<string>,
        contentRange: Option<string>,
        contentLength: Option<nat>,
        contentType: Option<string>,
        body: seq<Byte>,
        faults: set<nat>)

  /** The reply given to the i-th request of a fetch when it goes to a URL. */
  type Network = (nat, Url) -> Reply

  predicate StrongTag(tag: string) {
    && 2 <= |tag| <= 512
    && tag[0] == '"' && tag[|tag| - 1] == '"'
    && forall i :: 1 <= i < |tag| - 1 ==> '!' <= tag[i] < (0x7f as char) && tag[i] != '"'
  }

  predicate Agree(a: seq<Byte>, b: seq<Byte>) {
    a <= b || b <= a
  }

  function Delivered(r: Reply): Option<(nat, nat, nat)> {
    if r.Reply? && r.contentRange.Some? then ContentRange(r.contentRange.value) else None
  }

  /**
   RFC 9110 section 15.3.7.3: a 206 under a strong validator carries bytes of that one
   representation. The connection may still cut the body short or append to it.
   */
  ghost predicate Honest(o: Origin, net: Network) {
    forall i: nat, u: Url :: var r := net(i, u);
      r.Reply? && r.status == 206 && r.etag.Some? && StrongTag(r.etag.value) && Delivered(r).Some? ==>
        var (s, e, length) := Delivered(r).value;
        && (u, r.etag.value) in o
        && |o[(u, r.etag.value)]| == length
        && Agree(r.body, o[(u, r.etag.value)][s..e + 1])
  }

  predicate EndpointAllowed(origin: Url, ram: bool, u: Url) {
    && u.length <= MAX_URL && u.username == "" && u.password.None? && u.query.None? && u.fragment.None?
    && if ram then u == origin
       else u.scheme == "https" && u.port.None? && u.host.Some?
            && (u.host.value == "archive.org" || EndsWith(u.host.value, ".archive.org"))
  }

  /**
   Requests stay on the exact URL of the running process's own archive, or on archive.org and its
   subdomains over https on the default port; never with user information, a query or a fragment.
   */
  lemma EndpointMeaning(origin: Url, ram: bool, u: Url)
    ensures ram ==> (EndpointAllowed(origin, ram, u) <==>
      (u == origin && exists scheme, host, port, path, local, length ::
         u == Url(scheme, "", None, host, port, path, None, None, local, length) && length <= 6400))
    ensures !ram ==> (EndpointAllowed(origin, ram, u) <==>
      (exists host, path, local, length ::
         u == Url("https", "", None, Some(host), None, path, None, None, local, length) && length <= 6400
         && (host == "archive.org" || exists sub :: host == sub + ".archive.org")))
  {
    if EndpointAllowed(origin, ram, u) {
      if ram {
        assert u == Url(u.scheme, "", None, u.host, u.port, u.path, None, None, u.nonPublicHost, u.length);
      } else {
        var host := u.host.value;
        assert u == Url("https", "", None, Some(host), None, u.path, None, None, u.nonPublicHost, u.length);
        assert host != "archive.org" ==> host == host[..|host| - |".archive.org"|] + ".archive.org";
      }
    }
  }

  /** How many bytes the i-th read of a body returns, for any way the connection cuts it. */
  type Cuts = nat -> nat

  function ReadSize(wish: nat, limit: nat, left: nat): nat {
    var most := Min(limit, left);
    if wish == 0 && 0 < most then 1 else Min(wish, most)
  }

  /**
   The body loop. Whatever the sizes of the reads, the result is the whole body exactly when it has
   the wanted length and none of the rounds begun fails; there is at most one round per byte and
   one to see the end.
   */
  method ReadBody(body: seq<Byte>, cuts: Cuts, faults: set<nat>, wanted: nat)
    returns (r: Option<seq<Byte>>, ghost rounds: nat)
    ensures r.Some? ==> r.value == body
    ensures r.Some? <==> |body| == wanted && forall i :: 0 <= i < rounds ==> i !in faults
    ensures 0 < rounds <= |body| + 1
    ensures r.Some? ==> |body| <= (rounds - 1) * READ_BUFFER
  {
    var bytes: seq<Byte> := [];
    var round := 0;
    rounds := 0;
    while true
      invariant |bytes| <= wanted && |bytes| <= |body| && bytes == body[..|bytes|]
      invariant rounds == round <= |bytes| <= round * READ_BUFFER
      invariant forall i :: 0 <= i < round ==> i !in faults
      decreases |body| - |bytes|
    {
      rounds := round + 1;
      if round in faults {
        return None, rounds;
      }
      var limit := Min(wanted + 1 - |bytes|, READ_BUFFER);
      var n := ReadSize(cuts(round), limit, |body| - |bytes|);
      if n == 0 {
        break;
      }
      bytes := bytes + body[|bytes|..|bytes| + n];
      round := round + 1;
      if |bytes| > wanted {
        return None, rounds;
      }
    }
    assert |bytes| == |body|;
    if |bytes| != wanted {
      return None, rounds;
    }
    r := Some(bytes);
  }

  /** The checks on a 206 before its body is read. */
  predicate Acceptable(current: Url, start: nat, expected: Option<Identity>, r: Reply) {
    && r.Reply? && r.status == 206
    && (r.encoding.None? || LowerAll(r.encoding.value) == "identity")
    && r.etag.Some? && StrongTag(r.etag.value)
    && Delivered(r).Some?
    && var (s, e, length) := Delivered(r).value;
    && 0 < length <= MAX_FILE_BYTES
    && s == start
    && e == Min(start + BLOCK_BYTES - 1, length - 1)
    && (expected.Some? ==>
          expected.value.length == length && expected.value.etag == r.etag.value && expected.value.url == current)
    && r.contentLength == Some(e - s + 1)
  }

  /** A strong entity tag as RFC 9110 section 8.8.3 writes it, kept to 512 ASCII characters. */
  ghost predicate Quoted(tag: string) {
    exists text :: tag == "\"" + text + "\"" && |text| <= 510
                   && forall c :: c in text ==> '!' <= c <= '~' && c != '"'
  }

  /** The word `identity` in any mixture of letter cases. */
  ghost predicate SaysIdentity(s: string) {
    |s| == 8 && forall i :: 0 <= i < 8 ==> s[i] == "identity"[i] || s[i] == "IDENTITY"[i]
  }

  /** The text `bytes first-last/length`, its numbers written with any leading zeros. */
  ghost predicate SaysBytes(s: string, first: nat, last: nat, length: nat) {
    exists a, b, c ::
      && s == "bytes " + a + "-" + b + "/" + c
      && Numeral(a) && NumeralValue(a) == first
      && Numeral(b) && NumeralValue(b) == last
      && Numeral(c) && NumeralValue(c) == length
  }

  /**
   The header of a correct answer to the request for one block, field by field: the block of a file of
   `length` bytes, under a strong validator, from the expected file if there is one.
   */
  ghost predicate CorrectHeader(r: Reply, current: Url, job: Job, length: nat) {
    && r.Reply? && r.status == 206
    && (r.encoding.Some? ==> SaysIdentity(r.encoding.value))
    && r.etag.Some? && Quoted(r.etag.value)
    && BlockStart(job.target) < length <= MAX_FILE_BYTES
    && r.contentRange.Some?
    && SaysBytes(r.contentRange.value, BlockStart(job.target), BlockEnd(job.target, length) - 1, length)
    && r.contentLength == Some(BlockEnd(job.target, length) - BlockStart(job.target))
    && (job.expected.Some? ==>
          job.expected.value.url == current && Some(job.expected.value.etag) == r.etag && job.expected.value.length == length)
  }

  /** The whole answer: that header, and exactly so many bytes, none of the reads failing. */
  ghost predicate CorrectReply(r: Reply, current: Url, job: Job) {
    exists length ::
      && CorrectHeader(r, current, job, length)
      && |r.body| == BlockEnd(job.target, length) - BlockStart(job.target)
      && forall i :: i in r.faults ==> i > |r.body|
  }

  lemma StrongTagMeaning(tag: string)
    ensures StrongTag(tag) <==> Quoted(tag)
  {
    if StrongTag(tag) {
      StrongIsQuoted(tag);
    }
    if Quoted(tag) {
      QuotedIsStrong(tag);
    }
  }

  lemma StrongIsQuoted(tag: string)
    requires StrongTag(tag)
    ensures Quoted(tag)
  {
    var text := tag[1..|tag| - 1];
    assert tag == "\"" + text + "\"";
    forall c | c in text
      ensures '!' <= c <= '~' && c != '"'
    {
      var i :| 0 <= i < |text| && text[i] == c;
      assert tag[i + 1] == c;
    }
  }

  lemma QuotedIsStrong(tag: string)
    requires Quoted(tag)
    ensures StrongTag(tag)
  {
    var text :| tag == "\"" + text + "\"" && |text| <= 510 && forall c :: c in text ==> '!' <= c <= '~' && c != '"';
    hide Quoted;
    assert tag[0] == '"' && tag[|tag| - 1] == '"';
    forall i | 1 <= i < |tag| - 1
      ensures '!' <= tag[i] < (0x7f as char) && tag[i] != '"'
    {
      assert tag[i] == text[i - 1] && text[i - 1] in text;
    }
  }

  lemma IdentityMeaning(s: string)
    ensures LowerAll(s) == "identity" <==> SaysIdentity(s)
  {
    var lower, upper := "identity", "IDENTITY";
    forall i | 0 <= i < 8 && i < |s|
      ensures Lower(s[i]) == lower[i] <==> s[i] == lower[i] || s[i] == upper[i]
    {
    }
    if SaysIdentity(s) {
      assert LowerAll(s) == lower;
    }
    if LowerAll(s) == lower {
      assert forall i :: 0 <= i < 8 ==> LowerAll(s)[i] == lower[i];
    }
  }

  lemma SaysBytesMeaning(v: string, first: nat, last: nat, length: nat)
    requires length <= U64_MAX
    ensures SaysBytes(v, first, last, length) && first <= last < length <==> ContentRange(v) == Some((first, last, length))
  {
    ContentRangeMeaning(v);
    hide ContentRange, Numeral, NumeralValue;
    if SaysBytes(v, first, last, length) && first <= last < length {
      var a, b, c :| && v == "bytes " + a + "-" + b + "/" + c
                     && Numeral(a) && NumeralValue(a) == first
                     && Numeral(b) && NumeralValue(b) == last
                     && Numeral(c) && NumeralValue(c) == length;
      assert v == WrittenContent(a, b, c) && InOrder(a, b, c);
    }
    if ContentRange(v) == Some((first, last, length)) {
      var a, b, c :| v == WrittenContent(a, b, c) && InOrder(a, b, c);
      assert v == "bytes " + a + "-" + b + "/" + c;
    }
  }

  /** The block of a file that starts at a position inside it, as the request asks for it. */
  lemma BlockEdge(target: nat, length: nat)
    ensures BlockStart(target) == target * BLOCK_BYTES
    ensures BlockStart(target) < length ==>
      BlockStart(target) < BlockEnd(target, length) == Min(target * BLOCK_BYTES + BLOCK_BYTES - 1, length - 1) + 1
  {
  }

  lemma HeaderMeaning(r: Reply, current: Url, job: Job, length: nat)
    ensures CorrectHeader(r, current, job, length) <==>
      Acceptable(current, job.target * BLOCK_BYTES, job.expected, r) && Delivered(r).value.2 == length
    ensures CorrectHeader(r, current, job, length) ==>
      Delivered(r) == Some((BlockStart(job.target), BlockEnd(job.target, length) - 1, length))
  {
    BlockEdge(job.target, length);
    hide BlockStart, BlockEnd, StrongTag, Quoted, LowerAll, SaysIdentity, SaysBytes, ContentRange, Numeral, NumeralValue;
    if r.Reply? && r.status == 206 && r.etag.Some? && r.contentRange.Some? {
      if r.encoding.Some? {
        IdentityMeaning(r.encoding.value);
      }
      StrongTagMeaning(r.etag.value);
      if BlockStart(job.target) < length <= MAX_FILE_BYTES {
        SaysBytesMeaning(r.contentRange.value, BlockStart(job.target), BlockEnd(job.target, length) - 1, length);
      }
    }
  }

  /** The header checks of the code accept a reply exactly when its fields are those of a correct one. */
  lemma AcceptableMeaning(r: Reply, current: Url, job: Job)
    ensures Acceptable(current, job.target * BLOCK_BYTES, job.expected, r) <==>
      exists length :: CorrectHeader(r, current, job, length)
    ensures forall length: nat :: CorrectHeader(r, current, job, length) ==>
      Delivered(r) == Some((BlockStart(job.target), BlockEnd(job.target, length) - 1, length))
  {
    if Acceptable(current, job.target * BLOCK_BYTES, job.expected, r) {
      HeaderMeaning(r, current, job, Delivered(r).value.2);
    }
    hide Acceptable, CorrectHeader, ContentRange;
    forall length: nat
      ensures CorrectHeader(r, current, job, length) ==>
        && Acceptable(current, job.target * BLOCK_BYTES, job.expected, r)
        && Delivered(r) == Some((BlockStart(job.target), BlockEnd(job.target, length) - 1, length))
    {
      HeaderMeaning(r, current, job, length);
    }
  }

  /** Each request after the first goes where the reply to the one before redirects. */
  ghost predicate Followed(net: Network, requested: seq<Url>) {
    forall i: nat :: i < |requested| - 1 ==>
      net(i, requested[i]).Reply? && Redirects(net(i, requested[i]).status) && net(i, requested[i]).location == Some(requested[i + 1])
  }

  /** The last reply redirects to an allowed endpoint, with a redirect to spare. */
  predicate Followable(origin: Url, ram: bool, net: Network, requested: seq<Url>)
    requires requested != []
  {
    var r := net(|requested| - 1, requested[|requested| - 1]);
    && r.Reply? && Redirects(r.status) && |requested| <= MAX_REDIRECTS
    && r.location.Some? && EndpointAllowed(origin, ram, r.location.value)
  }

  /** An acceptable reply whose body has the advertised length carries exactly the block asked for. */
  lemma DeliversBlock(o: Origin, net: Network, job: Job, i: nat, current: Url, body: seq<Byte>)
    requires Honest(o, net) && Acceptable(current, job.target * BLOCK_BYTES, job.expected, net(i, current))
    requires var (s, e, length) := Delivered(net(i, current)).value;
      body == net(i, current).body && |body| == e - s + 1
    ensures var r := net(i, current);
      forall contentType :: Accepted(o, job, Identity(current, r.etag.value, Delivered(r).value.2, contentType), body)
  {
    hide StrongTag, ContentRange, LowerAll;
    var r := net(i, current);
    var (s, e, length) := Delivered(r).value;
    assert body == o[(current, r.etag.value)][s..e + 1];
  }

  /** The last reply redirects to `current`. */
  ghost predicate LeadsTo(net: Network, requested: seq<Url>, current: Url)
    requires requested != []
  {
    var r := net(|requested| - 1, requested[|requested| - 1]);
    r.Reply? && Redirects(r.status) && r.location == Some(current)
  }

  lemma FollowedNext(net: Network, requested: seq<Url>, current: Url)
    requires Followed(net, requested) && (requested != [] ==> LeadsTo(net, requested, current))
    ensures Followed(net, requested + [current])
  {
    var whole := requested + [current];
    forall i: nat | i < |requested|
      ensures net(i, whole[i]).Reply? && Redirects(net(i, whole[i]).status) && net(i, whole[i]).location == Some(whole[i + 1])
    {
      if i < |requested| - 1 {
        assert whole[i] == requested[i] && whole[i + 1] == requested[i + 1];
      }
    }
  }

  /** Requests to allowed endpoints in active time, from the first URL along the redirects. */
  ghost predicate Journey(origin: Url, ram: bool, net: Network, inactive: set<nat>, first: Url, requested: seq<Url>) {
    && (forall u :: u in requested ==> EndpointAllowed(origin, ram, u))
    && (requested != [] ==> requested[0] == first)
    && (forall n :: 0 <= n < |requested| ==> n !in inactive)
    && Followed(net, requested)
  }

  lemma JourneyBegins(origin: Url, ram: bool, net: Network, inactive: set<nat>, first: Url)
    ensures Journey(origin, ram, net, inactive, first, [])
  {
  }

  lemma JourneyNext(origin: Url, ram: bool, net: Network, inactive: set<nat>, first: Url, requested: seq<Url>, current: Url)
    requires Journey(origin, ram, net, inactive, first, requested)
    requires if requested == [] then current == first else LeadsTo(net, requested, current)
    requires EndpointAllowed(origin, ram, current) && |requested| !in inactive
    ensures Journey(origin, ram, net, inactive, first, requested + [current])
  {
    hide EndpointAllowed, Redirects;
    FollowedNext(net, requested, current);
  }

  /** What the last reply lets the fetch do. */
  lemma LastReply(origin: Url, ram: bool, net: Network, before: seq<Url>, current: Url, job: Job)
    ensures var requested, r := before + [current], net(|before|, current);
      && Followable(origin, ram, net, requested) == (r.Reply? && Redirects(r.status) && |before| < MAX_REDIRECTS
           && r.location.Some? && EndpointAllowed(origin, ram, r.location.value))
      && (r.Reply? && Redirects(r.status) && r.location.Some? ==> LeadsTo(net, requested, r.location.value))
      && (CorrectReply(r, current, job) ==> r.Reply? && !Redirects(r.status))
  {
    CorrectIsPartial(net(|before|, current), current, job);
  }

  lemma CorrectIsPartial(r: Reply, current: Url, job: Job)
    ensures CorrectReply(r, current, job) ==> r.Reply? && r.status == 206 && !Redirects(r.status)
  {
  }

  /**
   What is kept of a reply: its URL, its validator, the length it states, its body, and its media type
   if that is printable and short.
   */
  ghost predicate KeptFrom(r: Reply, current: Url, job: Job, got: Identity, bytes: seq<Byte>) {
    && CorrectHeader(r, current, job, got.length)
    && got.url == current && Some(got.etag) == r.etag
    && bytes == r.body && |bytes| == BlockEnd(job.target, got.length) - BlockStart(job.target)
    && 0 !in r.faults
    && got.contentType ==
       if r.contentType.Some? && |r.contentType.value| <= 128 && forall c :: c in r.contentType.value ==> ' ' <= c <= '~'
       then r.contentType.value else "application/octet-stream"
  }

  /**
   What becomes of the reply to request `i` when it is no redirect: a correct one is kept, and whatever
   is kept had a correct header and the whole body.
   */
  method TakeBlock(ghost o: Origin, net: Network, cuts: Cuts, job: Job, i: nat, current: Url)
    returns (got: Option<Identity>, bytes: seq<Byte>)
    requires Honest(o, net)
    ensures got.Some? ==> Accepted(o, job, got.value, bytes) && KeptFrom(net(i, current), current, job, got.value, bytes)
    ensures CorrectReply(net(i, current), current, job) ==> got.Some?
  {
    got, bytes := None, [];
    var r := net(i, current);
    AcceptableMeaning(r, current, job);
    hide Honest, Accepted, StrongTag, ContentRange, LowerAll, Quoted, SaysIdentity, SaysBytes;
    if !Acceptable(current, job.target * BLOCK_BYTES, job.expected, r) {
      return;
    }
    var (s, e, length) := Delivered(r).value;
    var body, _ := ReadBody(r.body, cuts, r.faults, e - s + 1);
    if body.None? {
      return;
    }
    DeliversBlock(o, net, job, i, current, body.value);
    HeaderMeaning(r, current, job, length);
    var contentType := if r.contentType.Some? && Printable(r.contentType.value) then r.contentType.value
                       else "application/octet-stream";
    return Some(Identity(current, r.etag.value, length, contentType)), body.value;
  }

  /**
   Fetches the block at `start`. `inactive` are the hops before which the cache had stopped or the
   deadline had passed. Every request goes to an allowed endpoint, there are at most four, each after
   the first follows the redirect before it, and the fetch goes on exactly while it may. What is
   returned is exactly the block of one representation, the expected one if any.
   */
  method FetchRange(ghost o: Origin, net: Network, cuts: Cuts, origin: Url, ram: bool, job: Job, inactive: set<nat>)
    returns (got: Option<Identity>, bytes: seq<Byte>, requested: seq<Url>)
    requires Honest(o, net)
    ensures got.Some? ==> Accepted(o, job, got.value, bytes) && requested != []
    ensures got.Some? ==> KeptFrom(net(|requested| - 1, requested[|requested| - 1]), requested[|requested| - 1], job, got.value, bytes)
    ensures |requested| <= MAX_REDIRECTS + 1
    ensures Journey(origin, ram, net, inactive, if job.expected.Some? then job.expected.value.url else origin, requested)
    ensures requested == [] <==>
      || BlockStart(job.target) + BLOCK_BYTES - 1 > U64_MAX
      || 0 in inactive
      || !EndpointAllowed(origin, ram, if job.expected.Some? then job.expected.value.url else origin)
    ensures requested != [] && Followable(origin, ram, net, requested) ==> |requested| in inactive
    ensures requested != [] && CorrectReply(net(|requested| - 1, requested[|requested| - 1]), requested[|requested| - 1], job) ==> got.Some?
  {
    hide Journey, Honest, Accepted, EndpointAllowed, Followed, StrongTag, ContentRange, LowerAll, Delivered, Acceptable,
      CorrectReply, KeptFrom, Redirects, Followable, LeadsTo, Known;
    var start := BlockStart(job.target);
    var current := match job.expected case None => origin case Some(id) => id.url;
    ghost var first := current;
    JourneyBegins(origin, ram, net, inactive, first);
    got, bytes, requested := None, [], [];
    if start + BLOCK_BYTES - 1 > U64_MAX {
      return;
    }
    var redirects := 0;
    while redirects <= MAX_REDIRECTS
      invariant redirects == |requested| <= MAX_REDIRECTS
      invariant Journey(origin, ram, net, inactive, first, requested)
      invariant if requested == [] then current == first else LeadsTo(net, requested, current)
      invariant requested != [] ==> 0 !in inactive && EndpointAllowed(origin, ram, first)
      invariant requested != [] ==> !CorrectReply(net(redirects - 1, requested[redirects - 1]), requested[redirects - 1], job)
      invariant requested != [] && Followable(origin, ram, net, requested) ==> EndpointAllowed(origin, ram, current)
    {
      if redirects in inactive || !EndpointAllowed(origin, ram, current) {
        return;
      }
      var r := net(redirects, current);
      JourneyNext(origin, ram, net, inactive, first, requested, current);
      LastReply(origin, ram, net, requested, current, job);
      requested := requested + [current];
      if r.NoReply? {
        return;
      }
      if Redirects(r.status) {
        if redirects == MAX_REDIRECTS || r.location.None? {
          return;
        }
        current := r.location.value;
        redirects := redirects + 1;
        continue;
      }
      got, bytes := TakeBlock(o, net, cuts, job, redirects, current);
      return;
    }
  }

  predicate Printable(s: string) {
    |s| <= 128 && forall c :: c in s ==> ' ' <= c < (0x7f as char)
  }

  // ----- Serving one response -----

  datatype Plan = Unsatisfiable(length: nat) | Respond(partial: bool, start: nat, end: nat)

  /** RFC 9110 section 13.1.5: a Range counts only when If-Range is absent or is this exact ETag. */
  function PlanFor(range: Option<string>, ifRange: Option<string>, id: Identity): (p: Plan)
    requires 0 < id.length
    ensures p.Respond? ==> p.start <= p.end < id.length
  {
    if range.None? || (ifRange.Some? && ifRange.value != id.etag) then Respond(false, 0, id.length - 1)
    else match SingleRange(range.value, id.length)
      case None => Unsatisfiable(id.length)
      case Some((s, e)) => Respond(true, s, e)
  }

  /** What can go wrong at one chunk: the owner stopped, the block failed, or the socket did. */
  datatype Fault = Inactive | ReadFails | WriteStops(sent: nat)

  /** One chunk lies inside one block, within the file: what a reader is allowed to ask the cache for. */
  ghost predicate Readable(length: nat, lo: nat, hi: nat) {
    lo <= hi < length && lo / BLOCK_BYTES == hi / BLOCK_BYTES && hi - lo + 1 <= BLOCK_BYTES
  }

  /** Consecutive readable chunks that start at `start` and stop before `next`. */
  ghost predicate Chain(length: nat, chunks: seq<(nat, nat)>, start: nat, next: nat) {
    && (forall i :: 0 <= i < |chunks| ==> Readable(length, chunks[i].0, chunks[i].1) && chunks[i].1 < next)
    && (chunks == [] ==> next == start)
    && (chunks != [] ==> chunks[0].0 == start && chunks[|chunks| - 1].1 + 1 == next)
    && forall i :: 0 <= i < |chunks| - 1 ==> chunks[i + 1].0 == chunks[i].1 + 1
  }

  /** Where the chunk from `position` ends: with its block or with the range. */
  function ChunkEnd(position: nat, end: nat): nat {
    Min((position / BLOCK_BYTES + 1) * BLOCK_BYTES - 1, end)
  }

  /** The chunks the serving loop asks for, from `position` to the end of the range. */
  function Chunks(position: nat, end: nat): (r: seq<(nat, nat)>)
    decreases end + 1 - position
  {
    if position > end then []
    else
      assert position <= ChunkEnd(position, end) <= end;
      [(position, ChunkEnd(position, end))] + Chunks(ChunkEnd(position, end) + 1, end)
  }

  /** They are readable, follow one another without a gap and cover the range. */
  lemma {:induction false} ChunksCover(length: nat, position: nat, end: nat)
    requires position <= end < length
    ensures Chain(length, Chunks(position, end), position, end + 1)
    decreases end - position
  {
    var blockEnd := ChunkEnd(position, end);
    OneBlock(length, position, blockEnd, end);
    hide Readable, ChunkEnd;
    var rest := Chunks(blockEnd + 1, end);
    if blockEnd < end {
      ChunksCover(length, blockEnd + 1, end);
      assert forall i :: 0 < i < |Chunks(position, end)| ==> Chunks(position, end)[i] == rest[i - 1];
    }
  }

  /** Every chunk but the last goes on to the end of its block. */
  lemma {:induction false} ChunksFillBlocks(position: nat, end: nat, i: nat)
    requires i < |Chunks(position, end)| - 1
    ensures (Chunks(position, end)[i].1 + 1) % BLOCK_BYTES == 0
    decreases i
  {
    OneBlock(end + 1, position, ChunkEnd(position, end), end);
    ChunksStep(position, end);
    hide Chunks, ChunkEnd;
    if i > 0 {
      ChunksFillBlocks(ChunkEnd(position, end) + 1, end, i - 1);
    } else {
      NoChunks(end + 1, end);
    }
  }

  /**
   The range loop of `serve`, over a cache whose reads give the original bytes (see
   `CacheSafety.ServedIsOriginal`). It asks for the chunks of the range in order, up to the first
   fault. Without a fault the body is exactly the advertised range; with one, what was sent is a
   strict prefix of it and nothing else.
   */
  method Stream(rep: seq<Byte>, start: nat, end: nat, faults: map<nat, Fault>)
    returns (sent: seq<Byte>, ok: bool, ghost asked: nat)
    requires start <= end < |rep|
    ensures asked <= |Chunks(start, end)| && forall i :: 0 <= i < asked - 1 ==> i !in faults
    ensures ok <==> asked == |Chunks(start, end)| && forall i :: 0 <= i < asked ==> i !in faults
    ensures !ok ==> 0 < asked && asked - 1 in faults
    ensures ok ==> sent == rep[start..end + 1]
    ensures !ok ==> |sent| < end - start + 1 && sent == rep[start..start + |sent|]
    ensures !ok ==> var (lo, hi) := Chunks(start, end)[asked - 1];
      start + |sent| == if !faults[asked - 1].WriteStops? then lo
                        else if lo + faults[asked - 1].sent < hi then lo + faults[asked - 1].sent
                        else hi
  {
    hide *;
    sent, asked := [], 0;
    var position := start;
    var index := 0;
    while position <= end
      invariant start <= position <= end + 1 && index == asked
      invariant sent == rep[start..position]
      invariant asked <= |Chunks(start, end)| && Chunks(position, end) == Chunks(start, end)[asked..]
      invariant forall i :: 0 <= i < asked ==> i !in faults
    {
      var blockEnd := ChunkEnd(position, end);
      ChunksStep(position, end);
      asked := asked + 1;
      if index in faults {
        match faults[index] {
          case WriteStops(n) =>
            var written := if n < blockEnd - position then n else blockEnd - position;
            Join(rep, start, position, position + written);
            sent := sent + rep[position..position + written];
          case _ =>
        }
        ok := false;
        return;
      }
      Join(rep, start, position, blockEnd + 1);
      sent := sent + rep[position..blockEnd + 1];
      position := blockEnd + 1;
      index := index + 1;
    }
    ok := true;
    NoChunks(position, end);
  }

  lemma ChunksStep(position: nat, end: nat)
    requires position <= end
    ensures position <= ChunkEnd(position, end) <= end
    ensures Chunks(position, end) == [(position, ChunkEnd(position, end))] + Chunks(ChunkEnd(position, end) + 1, end)
  {
  }

  lemma NoChunks(position: nat, end: nat)
    requires position > end
    ensures Chunks(position, end) == []
  {
  }

  lemma OneBlock(length: nat, position: nat, blockEnd: nat, end: nat)
    requires position <= end < length && blockEnd == ChunkEnd(position, end)
    ensures position <= blockEnd <= end && Readable(length, position, blockEnd)
    ensures blockEnd < end ==> (blockEnd + 1) % BLOCK_BYTES == 0
  {
  }

  lemma Join(s: seq<Byte>, a: nat, b: nat, c: nat)
    requires a <= b <= c <= |s|
    ensures s[a..b] + s[b..c] == s[a..c]
  {
  }

  /**
   A whole response: a redirect to the source, a refusal, a connection that broke before the header
   was out, or a status and advertised length followed by the body unless the method is HEAD.
   */
  datatype Response =
    | Moved
    | Refused(length: nat)
    | Broken
    | Sent(partial: bool, start: nat, contentLength: nat, body: seq<Byte>, ok: bool)

  /** `identified` and `reachable` say whether block 0 and the first block of the range could be had. */
  method Answer(rep: seq<Byte>, id: Identity, range: Option<string>, ifRange: Option<string>, head: bool,
                identified: bool, reachable: bool, headerSent: bool, faults: map<nat, Fault>) returns (r: Response)
    requires 0 < |rep| == id.length
    ensures r.Moved? <==> !identified || (PlanFor(range, ifRange, id).Respond? && !reachable)
    ensures r.Refused? <==> identified && PlanFor(range, ifRange, id).Unsatisfiable?
    ensures r.Refused? ==> r.length == id.length
    ensures r.Broken? <==> identified && PlanFor(range, ifRange, id).Respond? && reachable && !headerSent
    ensures r.Sent? ==> var p := PlanFor(range, ifRange, id);
      && r.partial == p.partial && r.start == p.start && r.contentLength == p.end - p.start + 1
      && (r.ok <==> head || forall i :: 0 <= i < |Chunks(p.start, p.end)| ==> i !in faults)
      && (r.ok && !head ==> |r.body| == r.contentLength && r.body == rep[p.start..p.end + 1])
      && (!r.ok ==> |r.body| < r.contentLength && r.body == rep[p.start..p.start + |r.body|])
      && (head ==> r.body == [])
    // Without a Range, or under another If-Range, whatever the Range says: all of the file.
    ensures range.None? || (ifRange.Some? && ifRange.value != id.etag) ==>
      && (r.Moved? <==> !identified || !reachable)
      && (r.Broken? <==> identified && reachable && !headerSent)
      && (r.Sent? <==> identified && reachable && headerSent)
      && (r.Sent? ==> !r.partial && r.start == 0 && r.contentLength == |rep| && (r.ok && !head ==> r.body == rep))
    // A Range that counts: exactly the bytes it selects, or a refusal.
    ensures |rep| <= U64_MAX && range.Some? && (ifRange.None? || ifRange.value == id.etag) ==>
      && (r.Refused? <==> identified && forall spec :: Asks(range.value, spec) ==> !Satisfiable(spec, |rep|))
      && (!r.Refused? ==>
            && (r.Moved? <==> !identified || !reachable)
            && (r.Broken? <==> identified && reachable && !headerSent))
      && (r.Sent? ==>
            && r.partial && r.start + r.contentLength <= |rep|
            && (r.ok && !head ==> r.body == rep[r.start..r.start + r.contentLength])
            && forall spec, k: nat :: Asks(range.value, spec) ==>
                 (Selects(spec, |rep|, k) <==> r.start <= k < r.start + r.contentLength))
  {
    if !identified {
      return Moved;
    }
    var p := PlanFor(range, ifRange, id);
    if range.Some? && |rep| <= U64_MAX {
      PlanPlain(range.value, ifRange, id);
    }
    assert rep[0..|rep|] == rep;
    hide SingleRange, Asks, Satisfiable, Selects, Chunks;
    if p.Unsatisfiable? {
      return Refused(p.length);
    }
    if !reachable {
      return Moved;
    }
    if !headerSent {
      return Broken;
    }
    if head {
      return Sent(p.partial, p.start, p.end - p.start + 1, [], true);
    }
    var sent, ok, _ := Stream(rep, p.start, p.end, faults);
    r := Sent(p.partial, p.start, p.end - p.start + 1, sent, ok);
  }

  /**
   End to end: for a value that asks for a range, under a matching or absent If-Range, the planned
   response covers exactly the selected bytes, and under any other If-Range all of them.
   */
  lemma PlanMeaning(v: string, spec: RangeSpec, ifRange: Option<string>, id: Identity)
    requires 0 < id.length <= U64_MAX && Asks(v, spec)
    ensures var p := PlanFor(Some(v), ifRange, id);
      if ifRange.Some? && ifRange.value != id.etag then p == Respond(false, 0, id.length - 1)
      else if Satisfiable(spec, id.length) then
        p.Respond? && p.partial && forall k: nat :: Selects(spec, id.length, k) <==> p.start <= k <= p.end
      else p == Unsatisfiable(id.length)
  {
    hide Asks, SingleRange;
    RangeMeaning(v, id.length);
  }

  /** A value that asks for no range at all is refused as unsatisfiable when its If-Range holds. */
  lemma PlanRefuses(v: string, ifRange: Option<string>, id: Identity)
    requires 0 < id.length <= U64_MAX && forall spec :: !Asks(v, spec)
    requires ifRange.None? || ifRange.value == id.etag
    ensures PlanFor(Some(v), ifRange, id) == Unsatisfiable(id.length)
  {
    hide Asks, SingleRange;
    RangeMeaning(v, id.length);
  }

  /** Both together, for a Range that counts. */
  lemma PlanPlain(v: string, ifRange: Option<string>, id: Identity)
    requires 0 < id.length <= U64_MAX
    ensures ifRange.None? || ifRange.value == id.etag ==>
      var p := PlanFor(Some(v), ifRange, id);
      && (p.Unsatisfiable? ==> p.length == id.length)
      && (p.Unsatisfiable? <==> forall spec :: Asks(v, spec) ==> !Satisfiable(spec, id.length))
      && (p.Respond? ==>
            && p.partial
            && forall spec, k: nat :: Asks(v, spec) ==> (Selects(spec, id.length, k) <==> p.start <= k <= p.end))
  {
    hide Asks, SingleRange, Selects, Satisfiable, PlanFor;
    forall spec | Asks(v, spec)
      ensures var p := PlanFor(Some(v), ifRange, id);
        ifRange.None? || ifRange.value == id.etag ==>
          if Satisfiable(spec, id.length) then
            p.Respond? && p.partial && forall k: nat :: Selects(spec, id.length, k) <==> p.start <= k <= p.end
          else p == Unsatisfiable(id.length)
    {
      PlanMeaning(v, spec, ifRange, id);
    }
    if ifRange.None? || ifRange.value == id.etag {
      if forall spec :: !Asks(v, spec) {
        PlanRefuses(v, ifRange, id);
      }
    }
  }

  /** Each chunk of a satisfiable range is a read the interleaving model admits once its block is ready. */
  lemma ChunksAreReads(o: Origin, c: Cache, t: Tid, start: nat, end: nat, k: nat)
    requires At(c, t) && c.clients[t].Idle?
    requires c.ledger.identity.Some? && start <= end < c.ledger.identity.value.length
    requires k < |Chunks(start, end)|
    requires !c.ledger.disabled && Chunks(start, end)[k].0 / BLOCK_BYTES < |c.ledger.blocks|
    requires c.ledger.blocks[Chunks(start, end)[k].0 / BLOCK_BYTES] == Ready
    ensures Enabled(o, c, ReadStart(t, Chunks(start, end)[k].0, Chunks(start, end)[k].1))
  {
    ChunksCover(c.ledger.identity.value.length, start, end);
    hide Chunks;
  }

  // ----- The serving loop over the cache, in every interleaving -----

  function Concat(parts: seq<Served>): seq<Byte> {
    if parts == [] then [] else Concat(parts[..|parts| - 1]) + parts[|parts| - 1].bytes
  }

  /** The reads made in some run for one client, one for each of the first chunks of a range. */
  ghost predicate ReadsOf(c: Cache, t: Tid, start: nat, end: nat, parts: seq<Served>) {
    && |parts| <= |Chunks(start, end)|
    && forall k :: 0 <= k < |parts| ==>
         && parts[k] in c.served && parts[k].client == t
         && (parts[k].start, parts[k].end) == Chunks(start, end)[k]
  }

  /** Parts of one whole that follow one another concatenate to the stretch they cover. */
  lemma {:induction false} ConcatOf(whole: seq<Byte>, parts: seq<Served>)
    requires parts != []
    requires forall k :: 0 <= k < |parts| ==>
      parts[k].start <= parts[k].end < |whole| && parts[k].bytes == whole[parts[k].start..parts[k].end + 1]
    requires forall k :: 0 <= k < |parts| - 1 ==> parts[k + 1].start == parts[k].end + 1
    ensures parts[0].start <= parts[|parts| - 1].end
    ensures Concat(parts) == whole[parts[0].start..parts[|parts| - 1].end + 1]
    decreases |parts|
  {
    var n := |parts| - 1;
    if n == 0 {
      assert parts[..0] == [];
    } else {
      ConcatOf(whole, parts[..n]);
      Join(whole, parts[0].start, parts[n].start, parts[n].end + 1);
    }
  }

  /**
   Whatever other clients, fetches and the owner did in between, the reads a client makes for the
   chunks of a range concatenate to that part of the original: all of it once every chunk was read.
   */
  lemma ResponseIsOriginal(o: Origin, cs: seq<Cache>, acts: seq<Action>, i: nat, t: Tid,
                           start: nat, end: nat, parts: seq<Served>)
    requires CacheSafety.History(o, cs, acts) && i < |cs|
    requires start <= end && parts != [] && ReadsOf(cs[i], t, start, end, parts)
    ensures cs[i].ledger.identity.Some? && Known(o, cs[i].ledger.identity.value)
    ensures start <= parts[|parts| - 1].end < cs[i].ledger.identity.value.length
    ensures Concat(parts) == Rep(o, cs[i].ledger.identity.value)[start..parts[|parts| - 1].end + 1]
    ensures |parts| == |Chunks(start, end)| ==> parts[|parts| - 1].end == end
  {
    hide CacheSafety.History, Known, Rep, Concat;
    CacheSafety.ServedIsOriginal(o, cs, acts, i, parts[0]);
    var id := cs[i].ledger.identity.value;
    RepSize(o, id);
    forall k | 0 <= k < |parts|
      ensures parts[k].start <= parts[k].end < id.length && parts[k].bytes == Rep(o, id)[parts[k].start..parts[k].end + 1]
    {
      CacheSafety.ServedIsOriginal(o, cs, acts, i, parts[k]);
    }
    PartsFollow(cs[i], t, start, end, parts);
    hide ReadsOf, Chunks;
    ConcatOf(Rep(o, id), parts);
  }

  lemma PartsFollow(c: Cache, t: Tid, start: nat, end: nat, parts: seq<Served>)
    requires start <= end && parts != [] && ReadsOf(c, t, start, end, parts)
    ensures parts[0].start == start
    ensures forall k :: 0 <= k < |parts| - 1 ==> parts[k + 1].start == parts[k].end + 1
    ensures |parts| == |Chunks(start, end)| ==> parts[|parts| - 1].end == end
  {
    ChunksCover(end + 1, start, end);
    hide Chunks, Readable;
  }

  lemma RepSize(o: Origin, id: Identity)
    requires Known(o, id)
    ensures |Rep(o, id)| == id.length
  {
  }
}
