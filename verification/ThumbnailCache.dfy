/**
 The private thumbnail cache: which names are its entries and its temporaries, and how it
 evicts down to two budgets at once.
 */
module ThumbnailCache {
  import opened Basics
  import opened Text
  import opened Sorting

  const MAX_DOWNLOAD_BYTES: nat := 4 * 1024 * 1024
  const DIGEST_LENGTH: nat := 64

  // ----- Names -----

  function StripSuffix(s: string, suffix: string): Option<string> {
    if EndsWith(s, suffix) then Some(s[..|s| - |suffix|]) else None
  }

  predicate LowerHex(c: char) { '0' <= c <= '9' || 'a' <= c <= 'f' }

  predicate IsEntryName(name: string) {
    var digest := StripSuffix(name, ".image");
    digest.Some? && |digest.value| == DIGEST_LENGTH
    && forall i :: 0 <= i < DIGEST_LENGTH ==> LowerHex(digest.value[i])
  }

  predicate Number(s: string) { s != "" && AllDigits(s) }

  /** Exactly two runs of digits with one dot between them. */
  predicate IsTempName(name: string) {
    match StripPrefix(name, ".thumbnail.")
    case None => false
    case Some(rest) =>
      match StripSuffix(rest, ".tmp")
      case None => false
      case Some(middle) =>
        match SplitOnce(middle, '.')
        case None => false
        case Some((process, sequence)) => Number(process) && Number(sequence)
  }

  function NameOf(process: string, sequence: string): string {
    ".thumbnail." + process + "." + sequence + ".tmp"
  }

  /** The name of an entry: 64 lower-case hexadecimal digits and the suffix. */
  lemma EntryNameMeaning(name: string)
    ensures IsEntryName(name) <==> exists digest ::
      name == digest + ".image" && |digest| == 64 && forall c :: c in digest ==> c in "0123456789abcdef"
  {
    forall c
      ensures c in "0123456789abcdef" <==> LowerHex(c)
    {
      LowerHexDigits(c);
    }
    if IsEntryName(name) {
      var digest := StripSuffix(name, ".image").value;
      assert name == digest + ".image";
    }
    if digest :| name == digest + ".image" && |digest| == 64 && forall c :: c in digest ==> c in "0123456789abcdef" {
      assert StripSuffix(name, ".image") == Some(digest);
    }
  }

  lemma LowerHexDigits(c: char)
    ensures c in "0123456789abcdef" <==> LowerHex(c)
  {
    var all := "0123456789abcdef";
    if '0' <= c <= '9' {
      assert all[c as int - '0' as int] == c;
    } else if 'a' <= c <= 'f' {
      assert all[10 + (c as int - 'a' as int)] == c;
    }
  }

  lemma NumberMeaning(s: string)
    ensures Number(s) <==> s != "" && forall c :: c in s ==> c in "0123456789"
  {
    var all := "0123456789";
    forall c
      ensures c in all <==> IsDigit(c)
    {
      if '0' <= c <= '9' {
        assert all[c as int - '0' as int] == c;
      }
    }
    if !AllDigits(s) {
      var i :| 0 <= i < |s| && !IsDigit(s[i]);
      assert s[i] in s;
    }
  }

  /** The name of a temporary: two numbers with a dot between them, a prefix and a suffix. */
  lemma TempNameMeaning(name: string)
    ensures IsTempName(name) <==> exists process, sequence ::
      name == NameOf(process, sequence) && Number(process) && Number(sequence)
  {
    if IsTempName(name) {
      var process, sequence := TempNameParts(name);
    }
    hide IsTempName, NameOf, Number;
    if process, sequence :| name == NameOf(process, sequence) && Number(process) && Number(sequence) {
      PartsNameTemp(process, sequence);
    }
  }

  lemma TempNameParts(name: string) returns (process: string, sequence: string)
    requires IsTempName(name)
    ensures name == NameOf(process, sequence) && Number(process) && Number(sequence)
  {
    var prefix, suffix := ".thumbnail.", ".tmp";
    var rest := StripPrefix(name, prefix).value;
    var middle := StripSuffix(rest, suffix).value;
    process, sequence := SplitOnce(middle, '.').value.0, SplitOnce(middle, '.').value.1;
    SplitOnceMeaning(middle, '.');
    assert name == prefix + rest && rest == middle + suffix;
    hide SplitOnce, AllDigits, StripPrefix, StripSuffix, IsTempName;
    assert middle == process + "." + sequence;
    assert prefix + (process + "." + sequence + suffix) == NameOf(process, sequence);
  }

  lemma PartsNameTemp(process: string, sequence: string)
    requires Number(process) && Number(sequence)
    ensures IsTempName(NameOf(process, sequence))
  {
    var prefix, suffix := ".thumbnail.", ".tmp";
    var middle := process + ['.'] + sequence;
    NoDot(process);
    hide AllDigits;
    assert NameOf(process, sequence) == prefix + (middle + suffix);
    PrefixOff(prefix, middle + suffix);
    assert StripSuffix(middle + suffix, suffix) == Some(middle);
    SplitAtFirst(process, '.', sequence);
    hide NameOf, StripPrefix, StripSuffix, SplitOnce;
  }

  lemma NoDot(s: string)
    requires Number(s)
    ensures '.' !in s
  {
  }

  function TempName(process: nat, sequence: nat): string {
    NameOf(Decimal(process), Decimal(sequence))
  }

  /** A name is never both, so no eviction rule applies to it twice. */
  lemma NamesDisjoint(name: string)
    ensures !(IsEntryName(name) && IsTempName(name))
  {
    if IsEntryName(name) {
      assert LowerHex(StripSuffix(name, ".image").value[0]);
      assert name[0] != '.' && ".thumbnail."[0] == '.';
    }
  }

  function Middle(process: nat, sequence: nat): string {
    Decimal(process) + ['.'] + Decimal(sequence)
  }

  lemma TempParts(process: nat, sequence: nat)
    ensures StripPrefix(TempName(process, sequence), ".thumbnail.") == Some(Middle(process, sequence) + ".tmp")
    ensures StripSuffix(Middle(process, sequence) + ".tmp", ".tmp") == Some(Middle(process, sequence))
    ensures SplitOnce(Middle(process, sequence), '.') == Some((Decimal(process), Decimal(sequence)))
    ensures Number(Decimal(process)) && Number(Decimal(sequence))
  {
    DecimalReadsBack(process);
    DecimalReadsBack(sequence);
    hide Decimal;
    assert TempName(process, sequence) == ".thumbnail." + (Middle(process, sequence) + ".tmp");
    PrefixOff(".thumbnail.", Middle(process, sequence) + ".tmp");
    SplitAtFirst(Decimal(process), '.', Decimal(sequence));
  }

  /** Every temporary the cache creates is recognized as one, and two of them never share a name. */
  lemma TempNames(process: nat, sequence: nat, process': nat, sequence': nat)
    ensures IsTempName(TempName(process, sequence))
    ensures TempName(process, sequence) == TempName(process', sequence') ==> process == process' && sequence == sequence'
  {
    TempParts(process, sequence);
    TempParts(process', sequence');
    DecimalReadsBack(process);
    DecimalReadsBack(sequence);
    DecimalReadsBack(process');
    DecimalReadsBack(sequence');
    hide Decimal;
  }

  // ----- Directory and budgets -----

  /** What the listing and the metadata give; an unlisted entry is one the directory read failed on. */
  datatype Stat = Unlisted | Gone | Unreadable | Other | File(length: nat, modified: int, expired: bool)

  /** One directory entry; `active` says that a writer has registered it as its temporary. */
  datatype Item = Item(name: string, active: bool, stat: Stat)

  datatype Policy = Policy(maxEntries: nat, maxBytes: nat)

  datatype Entry = Entry(path: string, modified: int, bytes: nat)

  predicate Valid(i: Item) {
    i.stat.File? && 0 < i.stat.length <= MAX_DOWNLOAD_BYTES && !i.stat.expired
  }

  /** Swept without regard to budgets: abandoned temporaries and unusable entries. */
  predicate Stale(i: Item) {
    if i.stat.Unlisted? then false
    else if IsTempName(i.name) then !i.active && i.stat.File?
    else IsEntryName(i.name) && !i.stat.Gone? && !i.stat.Unreadable? && !Valid(i)
  }

  function EntryOf(i: Item): Option<Entry> {
    if !IsTempName(i.name) && IsEntryName(i.name) && Valid(i)
    then Some(Entry(i.name, i.stat.modified, i.stat.length)) else None
  }

  function Entries(items: seq<Item>): seq<Entry> {
    if items == [] then []
    else Entries(items[..|items| - 1])
         + match EntryOf(items[|items| - 1]) case None => [] case Some(e) => [e]
  }

  predicate Older(a: Entry, b: Entry) {
    a.modified < b.modified || (a.modified == b.modified && Less(a.path, b.path))
  }

  /** The entries of a listing are its unexpired files of proper length under an entry's name. */
  lemma {:induction false} EntriesMeaning(items: seq<Item>, e: Entry)
    ensures e in Entries(items) <==> exists i ::
      && i in items && i.name == e.path && IsEntryName(i.name)
      && i.stat == File(e.bytes, e.modified, false) && 0 < e.bytes <= 4 * 1024 * 1024
  {
    hide IsEntryName, IsTempName;
    if items != [] {
      var last := |items| - 1;
      EntriesMeaning(items[..last], e);
      NamesDisjoint(items[last].name);
      assert items == items[..last] + [items[last]];
      var i := items[last];
      assert EntryOf(i) == Some(e) <==>
        (&& i.name == e.path && IsEntryName(i.name)
         && i.stat == File(e.bytes, e.modified, false) && 0 < e.bytes <= 4 * 1024 * 1024);
    }
  }

  function Bytes(s: seq<Entry>): nat {
    if s == [] then 0 else s[0].bytes + Bytes(s[1..])
  }

  predicate Meets(policy: Policy, s: seq<Entry>) {
    |s| <= policy.maxEntries && Bytes(s) <= policy.maxBytes
  }

  /** What remains after trying to remove the first `k` entries. */
  function Left(s: seq<Entry>, k: nat, failing: set<string>): seq<Entry>
    requires k <= |s|
  {
    if k == 0 then s
    else if s[0].path in failing then [s[0]] + Left(s[1..], k - 1, failing)
    else Left(s[1..], k - 1, failing)
  }

  /** The eviction stops at the first `k` that meets both budgets, or at the end. */
  ghost predicate StopsAt(policy: Policy, s: seq<Entry>, k: nat, failing: set<string>) {
    && k <= |s|
    && (Meets(policy, Left(s, k, failing)) || k == |s|)
    && forall j :: 0 <= j < k ==> !Meets(policy, Left(s, j, failing))
  }

  // ----- Lemmas on sums and suffixes -----

  lemma {:induction false} BytesAppend(a: seq<Entry>, b: seq<Entry>)
    ensures Bytes(a + b) == Bytes(a) + Bytes(b)
  {
    if a == [] {
      assert a + b == b;
    } else {
      assert (a + b)[1..] == a[1..] + b;
      BytesAppend(a[1..], b);
    }
  }

  function KeptOf(s: seq<Entry>, k: nat, failing: set<string>): seq<Entry>
    requires k <= |s|
  {
    if k == 0 then []
    else if s[0].path in failing then [s[0]] + KeptOf(s[1..], k - 1, failing)
    else KeptOf(s[1..], k - 1, failing)
  }

  lemma {:induction false} LeftSplits(s: seq<Entry>, k: nat, failing: set<string>)
    requires k <= |s|
    ensures Left(s, k, failing) == KeptOf(s, k, failing) + s[k..]
  {
    if k > 0 {
      LeftSplits(s[1..], k - 1, failing);
      assert s[1..][k - 1..] == s[k..];
    }
  }

  lemma {:induction false} KeptNext(s: seq<Entry>, k: nat, failing: set<string>)
    requires k < |s|
    ensures KeptOf(s, k + 1, failing) == KeptOf(s, k, failing) + if s[k].path in failing then [s[k]] else []
  {
    if k > 0 {
      KeptNext(s[1..], k - 1, failing);
    }
  }

  /** One more removal attempt takes exactly that entry's bytes away, unless it fails. */
  lemma LeftNext(s: seq<Entry>, k: nat, failing: set<string>)
    requires k < |s|
    ensures |Left(s, k + 1, failing)| == |Left(s, k, failing)| - (if s[k].path in failing then 0 else 1)
    ensures Bytes(Left(s, k + 1, failing)) == Bytes(Left(s, k, failing)) - (if s[k].path in failing then 0 else s[k].bytes)
  {
    LeftSplits(s, k, failing);
    LeftSplits(s, k + 1, failing);
    KeptNext(s, k, failing);
    var kept := KeptOf(s, k, failing);
    assert s[k..] == [s[k]] + s[k + 1..] && Bytes([s[k]]) == s[k].bytes;
    BytesAppend(kept, s[k..]);
    BytesAppend([s[k]], s[k + 1..]);
    if s[k].path in failing {
      assert (kept + [s[k]]) + s[k + 1..] == kept + s[k..];
    } else {
      assert kept + [] == kept;
      BytesAppend(kept, s[k + 1..]);
    }
  }

  /** What remains are the entries from `k` on and those whose removal fails. */
  lemma {:induction false} LeftMeaning(s: seq<Entry>, k: nat, failing: set<string>, e: Entry)
    requires k <= |s|
    ensures e in Left(s, k, failing) <==> exists i :: 0 <= i < |s| && s[i] == e && (i >= k || e.path in failing)
  {
    if k > 0 {
      LeftMeaning(s[1..], k - 1, failing, e);
      assert forall i :: 0 < i < |s| ==> s[i] == s[1..][i - 1];
    }
  }

  lemma {:induction false} NothingFails(s: seq<Entry>, k: nat, failing: set<string>)
    requires k <= |s| && forall e :: e in s ==> e.path !in failing
    ensures Left(s, k, failing) == s[k..]
  {
    if k > 0 {
      NothingFails(s[1..], k - 1, failing);
    }
  }

  /** When removals succeed, what remains is the longest suffix, oldest first, that meets both budgets. */
  lemma LongestSuffix(policy: Policy, s: seq<Entry>, k: nat, failing: set<string>)
    requires StopsAt(policy, s, k, failing) && forall e :: e in s ==> e.path !in failing
    ensures |s[k..]| <= policy.maxEntries && Bytes(s[k..]) <= policy.maxBytes
    ensures forall j :: 0 <= j < k ==> |s[j..]| > policy.maxEntries || Bytes(s[j..]) > policy.maxBytes
  {
    NothingFails(s, k, failing);
    forall j | 0 <= j < k
      ensures !Meets(policy, s[j..])
    {
      NothingFails(s, j, failing);
    }
  }

  // ----- The eviction -----

  /** The listing has one entry per name. */
  ghost predicate Distinct(items: seq<Item>) {
    forall i, j :: 0 <= i < j < |items| ==> items[i].name != items[j].name
  }

  datatype Verdict = Ignore | Remove | Abort | Budgeted(entry: Entry)

  /** What the pass does with one directory entry. */
  method Inspect(item: Item) returns (v: Verdict)
    ensures v.Remove? <==> Stale(item)
    ensures v.Abort? <==> Blocking(item)
    ensures EntryOf(item) == if v.Budgeted? then Some(v.entry) else None
    ensures item.stat.Unlisted? ==> v == Abort
    ensures !item.stat.Unlisted? && IsTempName(item.name) ==> v == if item.stat.File? && !item.active then Remove else Ignore
    ensures !item.stat.Unlisted? && !IsTempName(item.name) && !IsEntryName(item.name) ==> v == Ignore
    ensures IsEntryName(item.name) ==>
      && (item.stat.Gone? ==> v == Ignore)
      && (item.stat.Unreadable? ==> v == Abort)
      && (item.stat.Other? ==> v == Remove)
      && (item.stat.File? ==>
            v == if 0 < item.stat.length <= 4 * 1024 * 1024 && !item.stat.expired
                 then Budgeted(Entry(item.name, item.stat.modified, item.stat.length)) else Remove)
  {
    NamesDisjoint(item.name);
    hide IsTempName, IsEntryName;
    if item.stat.Unlisted? {
      return Abort;
    }
    if IsTempName(item.name) {
      if item.active {
        return Ignore;
      }
      return if item.stat.File? then Remove else Ignore;
    }
    if !IsEntryName(item.name) {
      return Ignore;
    }
    match item.stat
    case Gone => return Ignore;
    case Other => return Remove;
    case File(length, modified, expired) =>
      if length == 0 || length > MAX_DOWNLOAD_BYTES || expired {
        return Remove;
      }
      return Budgeted(Entry(item.name, modified, length));
    case _ => return Abort;
  }

  /**
   One pass over the directory, if it is `listable`. `failing` are the names whose removal does
   not succeed. A failing pass stops at the first entry that blocks it, after sweeping those before
   it. Otherwise entries are evicted oldest first until both budgets hold; the counters always describe
   what really remains. Active temporaries and foreign names are never removed.
   */
  method Evict(listable: bool, items: seq<Item>, policy: Policy, failing: set<string>)
    returns (ok: bool, removed: set<string>, ghost sorted: seq<Entry>, ghost stop: nat)
    requires Distinct(items)
    ensures ok <==> listable && forall i :: 0 <= i < |items| ==> !Blocking(items[i])
    ensures !listable ==> removed == {}
    ensures ok ==> Ordered(sorted, Older) && multiset(sorted) == multiset(Entries(items))
    ensures ok ==> forall i, j :: 0 <= i < j < |sorted| ==>
      sorted[i].modified < sorted[j].modified || (sorted[i].modified == sorted[j].modified && Less(sorted[i].path, sorted[j].path))
    ensures ok ==> StopsAt(policy, sorted, stop, failing)
    ensures ok && (forall e :: e in sorted ==> e.path !in failing) ==>
      && |sorted[stop..]| <= policy.maxEntries && Bytes(sorted[stop..]) <= policy.maxBytes
      && forall j :: 0 <= j < stop ==> |sorted[j..]| > policy.maxEntries || Bytes(sorted[j..]) > policy.maxBytes
    ensures ok ==> forall name :: name in removed <==>
      name !in failing && (Swept(items, name) || exists j :: 0 <= j < stop && sorted[j].path == name)
    ensures !ok && listable ==> stop < |items| && Blocking(items[stop]) && forall i :: 0 <= i < stop ==> !Blocking(items[i])
    ensures !ok && listable ==> forall name :: name in removed <==> name !in failing && Swept(items[..stop], name)
  {
    hide Stale, Blocking, EntryOf, Swept, Entries, Older, StopsAt;
    removed, sorted, stop := {}, [], 0;
    if !listable {
      return false, removed, sorted, stop;
    }
    var entries: seq<Entry> := [];
    var i := 0;
    NothingListed(items);
    while i < |items|
      invariant 0 <= i <= |items|
      invariant forall j :: 0 <= j < i ==> !Blocking(items[j])
      invariant Ordered(entries, Older) && multiset(entries) == multiset(Entries(items[..i]))
      invariant forall name :: name in removed <==> name !in failing && Swept(items[..i], name)
    {
      var item := items[i];
      EntriesNext(items, i);
      forall name: string
        ensures Swept(items[..i + 1], name) <==> Swept(items[..i], name) || (Stale(item) && item.name == name)
        ensures Swept(items[..i], name) ==> Swept(items, name)
      {
        SweptNext(items, i, name);
      }
      var v := Inspect(item);
      match v {
        case Ignore =>
        case Abort => return false, removed, [], i;
        case Remove =>
          if item.name !in failing {
            removed := removed + {item.name};
          }
        case Budgeted(e) =>
          NewEntry(items, i, entries, e);
          InsertOrdered(entries, e, Older);
          entries := Insert(entries, e, Older);
      }
      i := i + 1;
    }
    assert items[..i] == items;
    ok, sorted := true, entries;
    stop, removed := Trim(policy, entries, failing, removed);
    OldestFirst(sorted);
    if forall e :: e in sorted ==> e.path !in failing {
      LongestSuffix(policy, sorted, stop, failing);
    }
  }

  lemma OldestFirst(s: seq<Entry>)
    requires Ordered(s, Older)
    ensures forall i, j :: 0 <= i < j < |s| ==>
      s[i].modified < s[j].modified || (s[i].modified == s[j].modified && Less(s[i].path, s[j].path))
  {
    hide Less;
  }

  lemma NothingListed(items: seq<Item>)
    ensures Entries(items[..0]) == [] && forall name :: !Swept(items[..0], name)
  {
  }

  lemma EntriesNext(items: seq<Item>, i: nat)
    requires i < |items|
    ensures Entries(items[..i + 1])
      == Entries(items[..i]) + match EntryOf(items[i]) case None => [] case Some(e) => [e]
  {
    assert items[..i + 1][..i] == items[..i];
  }

  /** An entry the listing fails on, or a cache entry whose metadata cannot be read, ends the pass with an error. */
  predicate Blocking(i: Item) {
    i.stat.Unlisted? || (!IsTempName(i.name) && IsEntryName(i.name) && i.stat.Unreadable?)
  }

  ghost predicate Swept(items: seq<Item>, name: string) {
    exists i :: 0 <= i < |items| && Stale(items[i]) && items[i].name == name
  }

  lemma SweptNext(items: seq<Item>, i: nat, name: string)
    requires i < |items|
    ensures Swept(items[..i + 1], name) <==> Swept(items[..i], name) || (Stale(items[i]) && items[i].name == name)
    ensures Swept(items[..i], name) ==> Swept(items, name)
  {
    hide Stale;
    var longer := items[..i + 1];
    assert longer[i] == items[i];
    assert forall j :: 0 <= j < i ==> longer[j] == items[..i][j];
    assert forall j :: 0 <= j < i ==> items[j] == items[..i][j];
  }

  lemma {:induction false} EntryListed(items: seq<Item>, e: Entry)
    requires e in Entries(items)
    ensures exists i :: 0 <= i < |items| && EntryOf(items[i]) == Some(e)
  {
    var last := |items| - 1;
    if EntryOf(items[last]) != Some(e) {
      EntryListed(items[..last], e);
      var i :| 0 <= i < last && EntryOf(items[..last][i]) == Some(e);
      assert EntryOf(items[i]) == Some(e);
    }
  }

  lemma OlderTransitive()
    ensures Transitive(Older)
  {
    forall a, b, c | Older(a, b) && Older(b, c)
      ensures Older(a, c)
    {
      if a.modified == b.modified == c.modified {
        LessTrans(a.path, b.path, c.path);
      }
    }
  }

  /** A new entry has a new path, so its age is comparable with every earlier one. */
  lemma NewEntry(items: seq<Item>, i: nat, entries: seq<Entry>, e: Entry)
    requires Distinct(items) && i < |items| && EntryOf(items[i]) == Some(e)
    requires multiset(entries) == multiset(Entries(items[..i]))
    ensures Transitive(Older) && forall y :: y in entries ==> Older(y, e) || Older(e, y)
  {
    OlderTransitive();
    forall y | y in entries
      ensures Older(y, e) || Older(e, y)
    {
      assert y in multiset(Entries(items[..i]));
      EntryListed(items[..i], y);
      var j :| 0 <= j < i && EntryOf(items[..i][j]) == Some(y);
      assert items[j].name == y.path;
      LessTotal(y.path, e.path);
    }
  }

  /** The budget loop over the sorted entries, counting down as removals succeed. */
  method Trim(policy: Policy, entries: seq<Entry>, failing: set<string>, swept: set<string>)
    returns (stop: nat, removed: set<string>)
    ensures StopsAt(policy, entries, stop, failing)
    ensures forall name :: name in removed <==>
      name in swept || (name !in failing && exists j :: 0 <= j < stop && entries[j].path == name)
  {
    hide Left, Bytes;
    removed := swept;
    var totalBytes := SumBytes(entries);
    var totalEntries := |entries|;
    stop := 0;
    assert Left(entries, 0, failing) == entries by {
      LeftSplits(entries, 0, failing);
      NoneKept(entries, failing);
    }
    while stop < |entries|
      invariant 0 <= stop <= |entries|
      invariant totalEntries == |Left(entries, stop, failing)| && totalBytes == Bytes(Left(entries, stop, failing))
      invariant forall j :: 0 <= j < stop ==> !Meets(policy, Left(entries, j, failing))
      invariant forall name :: name in removed <==>
        name in swept || (name !in failing && exists j :: 0 <= j < stop && entries[j].path == name)
    {
      if totalEntries <= policy.maxEntries && totalBytes <= policy.maxBytes {
        break;
      }
      var entry := entries[stop];
      LeftNext(entries, stop, failing);
      if entry.path !in failing {
        totalEntries := if totalEntries == 0 then 0 else totalEntries - 1;
        totalBytes := if totalBytes < entry.bytes then 0 else totalBytes - entry.bytes;
        removed := removed + {entry.path};
      }
      stop := stop + 1;
    }
  }

  lemma NoneKept(s: seq<Entry>, failing: set<string>)
    ensures KeptOf(s, 0, failing) + s[0..] == s
  {
  }

  method SumBytes(entries: seq<Entry>) returns (total: nat)
    ensures total == Bytes(entries)
  {
    total := 0;
    var i := 0;
    while i < |entries|
      invariant 0 <= i <= |entries| && total == Bytes(entries[..i])
    {
      assert entries[..i + 1] == entries[..i] + [entries[i]];
      BytesAppend(entries[..i], [entries[i]]);
      total := total + entries[i].bytes;
      i := i + 1;
    }
    assert entries[..i] == entries;
  }

  /** Consequence for the names that must survive: a temporary in use, and anything foreign. */
  lemma Untouchable(items: seq<Item>, i: nat, sorted: seq<Entry>, j: nat)
    requires Distinct(items) && i < |items|
    requires (IsTempName(items[i].name) && items[i].active) || (!IsTempName(items[i].name) && !IsEntryName(items[i].name))
    requires multiset(sorted) == multiset(Entries(items)) && j < |sorted|
    ensures !Swept(items, items[i].name) && sorted[j].path != items[i].name
  {
    assert sorted[j] in multiset(Entries(items));
    EntryListed(items, sorted[j]);
    hide IsTempName, IsEntryName;
  }
}
