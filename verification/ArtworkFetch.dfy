/**
 Fetching remote artwork: redirects approved hop by hop, one redirect allowance shared by the
 full image and its tile fallback, and a cache that only ever holds a URL's own image.
 */
module ArtworkFetch {
  import opened Basics
  import ThumbnailCache

  const MAX_REDIRECTS: nat := 3
  const MAX_REDIRECT_URL: nat := 4 * 1024

  datatype Failure = InvalidSource | DownloadFailed | ResponseTooLarge | UnsupportedFormat

  datatype Location = Missing | TooLong | Unjoinable | To(target: Url)

  datatype Body = Bytes(bytes: seq<Byte>) | Oversized | Broken

  datatype Reply = NoReply | Reply(status: nat, location: Location, body: Body)

  /** The reply to the n-th request of one operation when it goes to a URL. */
  type Network = (nat, Url) -> Reply

  /** Route recognition that depends on path and query text, and the tile derived from a waveform URL. */
  datatype Routes = Routes(podProxy: Url -> bool, mediaPath: Url -> bool, tile: Url -> Option<Url>)

  // ----- Which URLs may be asked -----

  predicate Safe(u: Url) {
    (u.scheme == "http" || u.scheme == "https") && u.username == "" && u.password.None? && u.host.Some? && !u.nonPublicHost
  }

  predicate IsArchive(u: Url) {
    && u.length <= MAX_REDIRECT_URL && u.scheme == "https" && u.port.None? && u.query.None? && u.fragment.None?
    && Safe(u)
    && (u.host.value == "archive.org" || EndsWith(u.host.value, ".archive.org"))
  }

  predicate SameOrigin(a: Url, b: Url) {
    a.scheme == b.scheme && a.host == b.host && a.port == b.port
  }

  predicate SourceAllowed(routes: Routes, initial: Url, current: Url) {
    IsArchive(current) || (routes.podProxy(initial) && SameOrigin(initial, current))
  }

  predicate TargetAllowed(routes: Routes, initial: Url, current: Url, target: Url) {
    if IsArchive(current) then IsArchive(target)
    else
      && routes.podProxy(initial) && SameOrigin(initial, target)
      && target.fragment.None? && routes.mediaPath(target) && Safe(target)
  }

  /** A web URL with a public host and no user information. */
  lemma SafeMeaning(u: Url)
    ensures Safe(u) <==> exists scheme, host, port, path, query, fragment, length ::
      u == Url(scheme, "", None, Some(host), port, path, query, fragment, false, length) && scheme in {"http", "https"}
  {
    if Safe(u) {
      assert u == Url(u.scheme, "", None, Some(u.host.value), u.port, u.path, u.query, u.fragment, false, u.length);
    }
  }

  /** A short https URL of archive.org or a subdomain, on the default port, with a path alone. */
  lemma ArchiveMeaning(u: Url)
    ensures IsArchive(u) <==> exists host, path, length ::
      && u == Url("https", "", None, Some(host), None, path, None, None, false, length) && length <= 4096
      && (host == "archive.org" || exists sub :: host == sub + ".archive.org")
  {
    if IsArchive(u) {
      var host := u.host.value;
      assert u == Url("https", "", None, Some(host), None, u.path, None, None, false, u.length);
      assert host != "archive.org" ==> host == host[..|host| - |".archive.org"|] + ".archive.org";
    }
  }

  /**
   Which hops are approved: from Archive to Archive, and, when the first URL is a pod's proxy, within
   that pod's origin to a safe media path without a fragment.
   */
  lemma HopMeaning(routes: Routes, initial: Url, current: Url, target: Url)
    ensures SourceAllowed(routes, initial, current) && TargetAllowed(routes, initial, current, target) <==>
      if IsArchive(current) then IsArchive(target)
      else
        && routes.podProxy(initial) && routes.mediaPath(target) && Safe(target) && target.fragment == None
        && (forall hop :: hop in [current, target] ==>
              (hop.scheme, hop.host, hop.port) == (initial.scheme, initial.host, initial.port))
  {
    hide IsArchive, Safe;
    var hops := [current, target];
    assert hops[0] == current && hops[1] == target;
  }

  predicate Succeeds(status: nat): (r: bool)
    ensures r <==> status / 100 == 2
  {
    200 <= status < 300
  }

  // ----- One chain of requests -----

  predicate RedirectsTo(r: Reply, target: Url) {
    r.Reply? && Redirects(r.status) && r.location == To(target)
  }

  /** The requests of one fetch: the first to its own URL, each next one a hop that was approved. */
  ghost predicate Chain(routes: Routes, net: Network, first: nat, initial: Url, log: seq<Url>) {
    && (log != [] ==> log[0] == initial)
    && forall i: nat :: i < |log| - 1 ==>
         && RedirectsTo(net(first + i, log[i]), log[i + 1])
         && SourceAllowed(routes, initial, log[i]) && TargetAllowed(routes, initial, log[i], log[i + 1])
  }

  /** The last request of the chain brought these bytes. */
  ghost predicate Delivers(net: Network, first: nat, log: seq<Url>, bytes: seq<Byte>) {
    && log != []
    && var r := net(first + |log| - 1, log[|log| - 1]);
    && r.Reply? && Succeeds(r.status) && r.body == Bytes(bytes)
  }

  /** The last request of the chain brought an image-sized body, and in time. */
  ghost predicate Arrived(net: Network, first: nat, log: seq<Url>, slow: bool) {
    && log != [] && !slow
    && var r := net(first + |log| - 1, log[|log| - 1]);
    && r.Reply? && Succeeds(r.status) && r.body.Bytes? && |r.body.bytes| <= ThumbnailCache.MAX_DOWNLOAD_BYTES
  }

  /** What arrived is a recognized image. */
  ghost predicate Displayable(net: Network, first: nat, log: seq<Url>, slow: bool) {
    Arrived(net, first, log, slow) && Sniff(net(first + |log| - 1, log[|log| - 1]).body.bytes).Some?
  }

  /** The last reply redirects to an approved target with allowance left. */
  predicate MayGoOn(routes: Routes, net: Network, first: nat, initial: Url, log: seq<Url>, spent: nat) {
    && log != [] && spent + |log| - 1 < MAX_REDIRECTS
    && var current, r := log[|log| - 1], net(first + |log| - 1, log[|log| - 1]);
    && r.Reply? && Redirects(r.status) && SourceAllowed(routes, initial, current)
    && r.location.To? && TargetAllowed(routes, initial, current, r.location.target)
  }

  /** A pod's chain never leaves its origin, and an Archive chain never leaves Archive. */
  lemma {:induction false} ChainConfined(routes: Routes, net: Network, first: nat, initial: Url, log: seq<Url>, i: nat)
    requires Chain(routes, net, first, initial, log) && i < |log|
    ensures IsArchive(initial) ==> IsArchive(log[i])
    ensures !IsArchive(initial) ==> i == 0 || (routes.podProxy(initial) && (SameOrigin(initial, log[i]) || IsArchive(log[i])))
  {
    if i > 0 {
      ChainConfined(routes, net, first, initial, log, i - 1);
      var j: nat := i - 1;
      assert TargetAllowed(routes, initial, log[j], log[j + 1]);
    }
  }

  /**
   One fetch under the shared redirect allowance. `first` numbers its first request; `late`
   are the request numbers before which the deadline passed, and `slow` says that it had
   passed once the body was read.
   */
  method FetchRemote(routes: Routes, net: Network, late: set<nat>, slow: bool,
                     initial: Url, first: nat, redirects0: nat)
    returns (result: Result<seq<Byte>, Failure>, redirects: nat, log: seq<Url>)
    requires redirects0 <= MAX_REDIRECTS
    ensures redirects0 <= redirects <= MAX_REDIRECTS
    ensures redirects == redirects0 +
      if log == [] then 0 else if MayGoOn(routes, net, first, initial, log, redirects0) then |log| else |log| - 1
    ensures Chain(routes, net, first, initial, log)
    ensures result.Ok? ==> Delivers(net, first, log, result.value) && |result.value| <= ThumbnailCache.MAX_DOWNLOAD_BYTES
    ensures result == Err(InvalidSource) <==> UnsafeEnd(routes, net, first, initial, log, redirects0)
    ensures result.Ok? <==> Arrived(net, first, log, slow)
    ensures result == Err(ResponseTooLarge) <==>
      && log != []
      && var r := net(first + |log| - 1, log[|log| - 1]);
      && r.Reply? && Succeeds(r.status)
      && (r.body.Oversized? || (r.body.Bytes? && !slow && |r.body.bytes| > ThumbnailCache.MAX_DOWNLOAD_BYTES))
    ensures result != Err(UnsupportedFormat)
    ensures log == [] <==> first in late
    ensures MayGoOn(routes, net, first, initial, log, redirects0) ==> first + |log| in late
    ensures forall n :: first <= n < first + |log| ==> n !in late
  {
    hide SourceAllowed, TargetAllowed, Redirects;
    var current := initial;
    redirects, log := redirects0, [];
    while true
      invariant redirects0 <= redirects <= MAX_REDIRECTS && |log| == redirects - redirects0
      invariant Chain(routes, net, first, initial, log + [current])
      invariant forall n :: first <= n < first + |log| ==> n !in late
      decreases MAX_REDIRECTS - redirects
    {
      if first + |log| in late {
        result := Err(DownloadFailed);
        GivenUp(routes, net, first, initial, log, current);
        return;
      }
      var r := net(first + |log|, current);
      log := log + [current];
      if r.NoReply? {
        return Err(DownloadFailed), redirects, log;
      }
      if Succeeds(r.status) {
        match r.body {
          case Oversized => return Err(ResponseTooLarge), redirects, log;
          case Broken => return Err(DownloadFailed), redirects, log;
          case Bytes(bytes) =>
            if slow {
              return Err(DownloadFailed), redirects, log;
            }
            if |bytes| > ThumbnailCache.MAX_DOWNLOAD_BYTES {
              return Err(ResponseTooLarge), redirects, log;
            }
            return Ok(bytes), redirects, log;
        }
      }
      if !Redirects(r.status) || redirects == MAX_REDIRECTS || !SourceAllowed(routes, initial, current) {
        return Err(DownloadFailed), redirects, log;
      }
      match r.location {
        case Missing => return Err(DownloadFailed), redirects, log;
        case TooLong => return Err(InvalidSource), redirects, log;
        case Unjoinable => return Err(InvalidSource), redirects, log;
        case To(target) =>
          if !TargetAllowed(routes, initial, current, target) {
            return Err(InvalidSource), redirects, log;
          }
          current := target;
          redirects := redirects + 1;
      }
    }
  }

  /**
   The last reply redirects, from a place that may redirect and with allowance left after the
   `spent` redirects before this chain, to where it may not.
   */
  predicate UnsafeEnd(routes: Routes, net: Network, first: nat, initial: Url, log: seq<Url>, spent: nat) {
    log != [] && spent + |log| - 1 < MAX_REDIRECTS
    && var current, r := log[|log| - 1], net(first + |log| - 1, log[|log| - 1]);
    && r.Reply? && Redirects(r.status) && SourceAllowed(routes, initial, current)
    && match r.location
       case Missing => false
       case To(target) => !TargetAllowed(routes, initial, current, target)
       case _ => true
  }

  lemma GivenUp(routes: Routes, net: Network, first: nat, initial: Url, log: seq<Url>, current: Url)
    requires Chain(routes, net, first, initial, log + [current])
    ensures Chain(routes, net, first, initial, log)
    ensures log != [] ==>
      RedirectsTo(net(first + |log| - 1, log[|log| - 1]), current)
      && SourceAllowed(routes, initial, log[|log| - 1]) && TargetAllowed(routes, initial, log[|log| - 1], current)
  {
    var whole := log + [current];
    hide TargetAllowed, SourceAllowed, RedirectsTo;
    forall i: nat | i < |log| - 1
      ensures RedirectsTo(net(first + i, log[i]), log[i + 1])
        && SourceAllowed(routes, initial, log[i]) && TargetAllowed(routes, initial, log[i], log[i + 1])
    {
      assert whole[i] == log[i] && whole[i + 1] == log[i + 1];
    }
    if log != [] {
      var i: nat := |log| - 1;
      assert whole[i] == log[i] && whole[i + 1] == current;
      assert whole[0] == log[0];
    }
  }

  // ----- Formats -----

  datatype Format = Png | Jpeg | WebP

  function Sniff(b: seq<Byte>): Option<Format> {
    if [0x89, 0x50, 0x4E, 0x47, 0x0D, 0x0A, 0x1A, 0x0A] <= b then Some(Png)
    else if [0xFF, 0xD8, 0xFF] <= b then Some(Jpeg)
    else if 12 <= |b| && [0x52, 0x49, 0x46, 0x46] <= b && b[8..12] == [0x57, 0x45, 0x42, 0x50] then Some(WebP)
    else None
  }

  ghost function Ascii(text: string): seq<int> {
    seq(|text|, i requires 0 <= i < |text| => text[i] as int)
  }

  /** The three recognized images by their first bytes. */
  lemma SniffMeaning(b: seq<Byte>)
    ensures Sniff(b) == Some(Png) <==> exists rest: seq<int> :: b == [137] + Ascii("PNG\r\n") + [26, 10] + rest
    ensures Sniff(b) == Some(Jpeg) <==> exists rest: seq<int> :: b == [255, 216, 255] + rest
    ensures Sniff(b) == Some(WebP) <==> exists size: seq<int>, rest: seq<int> ::
      |size| == 4 && b == Ascii("RIFF") + size + Ascii("WEBP") + rest
  {
    var png, jpeg: seq<int> := [137] + Ascii("PNG\r\n") + [26, 10], [255, 216, 255];
    assert png == [0x89, 0x50, 0x4E, 0x47, 0x0D, 0x0A, 0x1A, 0x0A];
    var riff, webp := Ascii("RIFF"), Ascii("WEBP");
    assert riff == [0x52, 0x49, 0x46, 0x46] && webp == [0x57, 0x45, 0x42, 0x50];
    hide Ascii;
    if png <= b {
      assert b == png + b[8..];
    }
    if jpeg <= b {
      assert b == jpeg + b[3..];
    }
    if 12 <= |b| && riff <= b && b[8..12] == webp {
      assert b == riff + b[4..8] + webp + b[12..];
    }
    if size, rest :| |size| == 4 && b == riff + size + webp + rest {
      assert b[..4] == riff && b[8..12] == webp && b[0] == 0x52;
    }
    if rest :| b == png + rest {
      assert b[..8] == png && b[0] == 0x89;
    }
    if rest :| b == jpeg + rest {
      assert b[..3] == jpeg && b[0] == 0xFF;
    }
  }

  // ----- Primary and fallback -----

  datatype Download = Download(bytes: seq<Byte>, isFallback: bool)

  /** Times at which deadlines had passed, for the primary and for the fallback. */
  datatype Clock = Clock(latePrimary: set<nat>, slowPrimary: bool, lateFallback: set<nat>, slowFallback: bool)

  method FetchWithFallback(routes: Routes, net: Network, clock: Clock, source: Url)
    returns (result: Result<Download, Failure>, primary: seq<Url>, fallback: seq<Url>)
    ensures |primary| + |fallback| <= MAX_REDIRECTS + 2
    ensures Chain(routes, net, 0, source, primary)
    ensures fallback != [] ==> routes.tile(source).Some? && Chain(routes, net, |primary|, routes.tile(source).value, fallback)
    ensures UnsafeEnd(routes, net, 0, source, primary, 0) ==> fallback == [] && result == Err(InvalidSource)
    ensures result.Ok? && !result.value.isFallback ==> Delivers(net, 0, primary, result.value.bytes)
    ensures result.Ok? && result.value.isFallback ==>
      routes.tile(source).Some? && Delivers(net, |primary|, fallback, result.value.bytes) && Sniff(result.value.bytes).Some?
    ensures routes.tile(source).None? ==> fallback == [] && (result.Ok? ==> !result.value.isFallback)
    ensures routes.tile(source).None? ==> (result.Ok? <==> Arrived(net, 0, primary, clock.slowPrimary))
    ensures routes.tile(source).None? ==> (result == Err(InvalidSource) <==> UnsafeEnd(routes, net, 0, source, primary, 0))
    ensures routes.tile(source).Some? && Displayable(net, 0, primary, clock.slowPrimary) ==>
      fallback == [] && result.Ok? && !result.value.isFallback
    ensures routes.tile(source).Some? && !Displayable(net, 0, primary, clock.slowPrimary) ==>
      UnsafeEnd(routes, net, 0, source, primary, 0) || (
        && (fallback == [] <==> |primary| in clock.lateFallback)
        && (result.Ok? <==> Displayable(net, |primary|, fallback, clock.slowFallback))
        && (result == Err(UnsupportedFormat) <==>
              Arrived(net, |primary|, fallback, clock.slowFallback)
              && !Displayable(net, |primary|, fallback, clock.slowFallback))
        && (result.Ok? ==> result.value.isFallback))
  {
    fallback := [];
    var redirects := 0;
    var first: Result<seq<Byte>, Failure>;
    first, redirects, primary := FetchRemote(routes, net, clock.latePrimary, clock.slowPrimary, source, 0, redirects);
    var tile := routes.tile(source);
    if tile.None? {
      result := match first case Ok(bytes) => Ok(Download(bytes, false)) case Err(f) => Err(f);
      return;
    }
    if first.Ok? && Sniff(first.value).Some? {
      return Ok(Download(first.value, false)), primary, fallback;
    }
    if first == Err(InvalidSource) {
      return Err(InvalidSource), primary, fallback;
    }
    var second: Result<seq<Byte>, Failure>;
    second, redirects, fallback := FetchRemote(routes, net, clock.lateFallback, clock.slowFallback, tile.value, |primary|, redirects);
    match second {
      case Err(f) => result := Err(f);
      case Ok(bytes) =>
        result := if Sniff(bytes).Some? then Ok(Download(bytes, true)) else Err(UnsupportedFormat);
    }
  }

  // ----- The cache -----

  /** The private cache as a map; `provenance` records which bytes each URL's own chain has brought. */
  class ArtworkCache {
    var entries: map<Url, seq<Byte>>
    ghost var provenance: set<(Url, seq<Byte>)>

    ghost predicate Valid()
      reads this
    {
      forall u :: u in entries ==> (u, entries[u]) in provenance
    }

    constructor ()
      ensures Valid() && entries == map[]
    {
      entries, provenance := map[], {};
    }

    /**
     Returns artwork from the cache or the network. `readable` and `storable` say whether the
     cache file can be read and written. Only the image of the URL itself is ever stored under
     it; a tile shown in its place is not.
     */
    method RemoteArtwork(routes: Routes, net: Network, clock: Clock, source: Url, readable: bool, storable: bool)
      returns (result: Result<(seq<Byte>, Format), Failure>, ghost primary: seq<Url>, ghost fallback: seq<Url>)
      requires Valid()
      modifies this
      ensures Valid()
      ensures !Safe(source) ==> result == Err(InvalidSource) && primary == [] && fallback == [] && entries == old(entries)
      ensures |primary| + |fallback| <= MAX_REDIRECTS + 2
      ensures Chain(routes, net, 0, source, primary)
      ensures result.Ok? ==> Sniff(result.value.0) == Some(result.value.1)
      ensures Safe(source) && readable && source in old(entries) && Sniff(old(entries)[source]).Some? ==>
        result.Ok? && result.value.0 == old(entries)[source] && primary == [] && entries == old(entries)
      ensures Safe(source) && !(readable && source in old(entries) && Sniff(old(entries)[source]).Some?) ==>
        && (Displayable(net, 0, primary, clock.slowPrimary) ==>
              result.Ok? && Delivers(net, 0, primary, result.value.0)
              && (storable ==> entries == old(entries)[source := result.value.0]))
        && (result.Ok? && !Displayable(net, 0, primary, clock.slowPrimary) ==> entries == old(entries))
        && (!Displayable(net, 0, primary, clock.slowPrimary) ==>
              (result.Ok? <==> routes.tile(source).Some? && !UnsafeEnd(routes, net, 0, source, primary, 0)
                               && Displayable(net, |primary|, fallback, clock.slowFallback)))
      ensures result.Ok? ==>
        || (primary == [] && fallback == [] && source in old(entries) && old(entries)[source] == result.value.0)
        || Delivers(net, 0, primary, result.value.0)
        || (routes.tile(source).Some? && Chain(routes, net, |primary|, routes.tile(source).value, fallback)
            && Delivers(net, |primary|, fallback, result.value.0))
      ensures entries == old(entries)
        || (result.Ok? && entries == old(entries)[source := result.value.0] && Delivers(net, 0, primary, result.value.0))
      ensures provenance == old(provenance)
        || (result.Ok? && provenance == old(provenance) + {(source, result.value.0)} && Delivers(net, 0, primary, result.value.0))
    {
      primary, fallback := [], [];
      if !Safe(source) {
        return Err(InvalidSource), primary, fallback;
      }
      if readable && source in entries {
        var cached := Sniff(entries[source]);
        if cached.Some? {
          return Ok((entries[source], cached.value)), primary, fallback;
        }
      }
      var fetched, p, f := FetchWithFallback(routes, net, clock, source);
      primary, fallback := p, f;
      if fetched.Err? {
        return Err(fetched.error), primary, fallback;
      }
      var format := Sniff(fetched.value.bytes);
      if format.None? {
        return Err(UnsupportedFormat), primary, fallback;
      }
      if !fetched.value.isFallback {
        provenance := provenance + {(source, fetched.value.bytes)};
        if storable {
          entries := entries[source := fetched.value.bytes];
        }
      }
      result := Ok((fetched.value.bytes, format.value));
    }
  }
}
