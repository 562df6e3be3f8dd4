/**
 Deduplication of NPR station responses into services: one per stream GUID, with every
 transmitter as an alias, the preferred one selected, and a homepage inherited if need be.
 */
module NprServices {
  import opened Basics
  import opened Text

  const DIRECTORY: string := "https://www.npr.org/stations"

  datatype StreamKind = Direct | M3u

  /** One URL of a stream; codecs are numbered. */
  datatype Choice = Choice(url: string, codec: Option<nat>, kind: StreamKind, rank: nat)

  /** One stream of one response item, with the item's station facts. */
  datatype Candidate = Candidate(
    guid: string,
    title: string,
    description: Option<string>,
    primary: bool,
    orgId: string,
    brandName: string,
    call: string,
    brand: string,
    city: string,
    state: string,
    homepage: string,
    inherited: bool,
    choices: seq<Choice>)

  datatype Group = Group(selected: Candidate, aliases: set<string>)

  // ----- Text -----

  predicate IsSpace(c: char) { c == ' ' || c == '\t' || c == '\n' || c == '\r' }

  predicate Blank(s: string) { forall i :: 0 <= i < |s| ==> IsSpace(s[i]) }

  predicate Contains(s: string, part: string) {
    exists i :: 0 <= i <= |s| && part <= s[i..]
  }

  predicate ContainsIgnoringCase(s: string, part: string) {
    !Blank(part) && Contains(LowerAll(s), LowerAll(part))
  }

  // ----- Preference -----

  predicate Affinity(c: Candidate) {
    ContainsIgnoringCase(c.title, c.call) || ContainsIgnoringCase(c.title, c.brandName)
  }

  function BandRank(brand: string): nat {
    if Contains(brand, " FM") then 0 else if Contains(brand, " AM") then 2 else 1
  }

  function Number(b: bool): nat { if b then 1 else 0 }

  /** What candidates are compared by, most significant first. */
  datatype Key = Key(inherited: nat, detached: nat, secondary: nat, band: nat, org: string)

  function KeyOf(c: Candidate): Key {
    Key(Number(c.inherited), Number(!Affinity(c)), Number(!c.primary), BandRank(c.brand), c.orgId)
  }

  predicate KeyLess(a: Key, b: Key) {
    if a.inherited != b.inherited then a.inherited < b.inherited
    else if a.detached != b.detached then a.detached < b.detached
    else if a.secondary != b.secondary then a.secondary < b.secondary
    else if a.band != b.band then a.band < b.band
    else Less(a.org, b.org)
  }

  lemma KeyOrder(a: Key, b: Key, c: Key)
    ensures KeyLess(a, b) || a == b || KeyLess(b, a)
    ensures !(KeyLess(a, b) && KeyLess(b, a))
    ensures KeyLess(a, b) && KeyLess(b, c) ==> KeyLess(a, c)
  {
    LessTotal(a.org, b.org);
    if Less(a.org, b.org) && Less(b.org, c.org) {
      LessTrans(a.org, b.org, c.org);
    }
  }

  /** The comparison is `Less` in the source's ordering. */
  predicate Preferred(a: Candidate, b: Candidate) {
    KeyLess(KeyOf(a), KeyOf(b))
  }

  lemma ContainsMeaning(s: string, part: string)
    ensures Contains(s, part) <==> exists x, y :: s == x + part + y
  {
    if i :| 0 <= i <= |s| && part <= s[i..] {
      assert s == s[..i] + part + s[i + |part|..];
    }
    if x, y :| s == x + part + y {
      assert part <= s[|x|..];
    }
  }

  lemma BlankMeaning(s: string)
    ensures Blank(s) <==> forall c :: c in s ==> c in " \t\n\r"
  {
    forall c
      ensures c in " \t\n\r" <==> IsSpace(c)
    {
      assert " \t\n\r"[0] == ' ' && " \t\n\r"[1] == '\t' && " \t\n\r"[2] == '\n' && " \t\n\r"[3] == '\r';
    }
    if !Blank(s) {
      var i :| 0 <= i < |s| && !IsSpace(s[i]);
      assert s[i] in s;
    }
  }

  /** A name stands somewhere in the title, in any letter case, and is not made of spaces alone. */
  ghost predicate Names(title: string, name: string) {
    (exists c :: c in name && c !in " \t\n\r") && exists x, y :: LowerAll(title) == x + LowerAll(name) + y
  }

  lemma AffinityMeaning(c: Candidate)
    ensures Affinity(c) <==> Names(c.title, c.call) || Names(c.title, c.brandName)
  {
    BlankMeaning(c.call);
    BlankMeaning(c.brandName);
    ContainsMeaning(LowerAll(c.title), LowerAll(c.call));
    ContainsMeaning(LowerAll(c.title), LowerAll(c.brandName));
  }

  ghost predicate OnBand(c: Candidate, band: string) {
    exists x, y :: c.brand == x + " " + band + y
  }

  /** FM, or neither, or AM only, from first to last. */
  ghost predicate BandBefore(a: Candidate, b: Candidate) {
    || (OnBand(a, "FM") && !OnBand(b, "FM"))
    || (!OnBand(a, "AM") && OnBand(b, "AM") && !OnBand(b, "FM"))
  }

  lemma BandMeaning(a: Candidate, b: Candidate)
    ensures BandRank(a.brand) < BandRank(b.brand) <==> BandBefore(a, b)
  {
    forall c: Candidate
      ensures Contains(c.brand, " FM") <==> OnBand(c, "FM")
      ensures Contains(c.brand, " AM") <==> OnBand(c, "AM")
    {
      ContainsMeaning(c.brand, " FM");
      ContainsMeaning(c.brand, " AM");
      assert " " + "FM" == " FM" && " " + "AM" == " AM";
      forall x, y
        ensures x + " " + "FM" + y == x + " FM" + y && x + " " + "AM" + y == x + " AM" + y
      {
        assert x + " " + "FM" == x + (" " + "FM") && x + " " + "AM" == x + (" " + "AM");
      }
    }
  }

  /**
   Who is preferred, in the candidates' own fields: a local stream to an inherited one; then one whose
   title names its station; then a primary one; then FM before AM; then the lesser organization id.
   */
  lemma PreferredMeaning(a: Candidate, b: Candidate)
    ensures var x, y := Affinity(a), Affinity(b);
      Preferred(a, b) <==>
        || (!a.inherited && b.inherited)
        || (&& a.inherited == b.inherited
            && (|| (x && !y)
                || (&& x == y
                    && (|| (a.primary && !b.primary)
                        || (&& a.primary == b.primary
                            && (|| BandBefore(a, b)
                                || (!BandBefore(b, a) && Less(a.orgId, b.orgId))))))))
  {
    BandMeaning(a, b);
    BandMeaning(b, a);
    hide Affinity, BandRank, BandBefore, Less;
  }

  lemma PreferredOrder(a: Candidate, b: Candidate, c: Candidate)
    ensures !(Preferred(a, b) && Preferred(b, a))
    ensures Preferred(a, b) && Preferred(b, c) ==> Preferred(a, c)
    ensures Preferred(a, b) && !Preferred(c, b) ==> Preferred(a, c)
    ensures !Preferred(b, a) && !Preferred(c, b) ==> !Preferred(c, a)
  {
    hide Affinity, BandRank, Less;
    KeyOrder(KeyOf(a), KeyOf(b), KeyOf(c));
    KeyOrder(KeyOf(b), KeyOf(c), KeyOf(a));
    KeyOrder(KeyOf(c), KeyOf(a), KeyOf(b));
  }

  function Alias(c: Candidate): string {
    var location :=
      if c.city != "" && c.state != "" then c.city + ", " + c.state
      else if c.city != "" then c.city
      else c.state;
    if c.brand != "" && location != "" then c.brand + " (" + location + ")"
    else if c.brand != "" then c.brand
    else if location != "" then location
    else c.brandName
  }

  /** The brand, its place in parentheses after it, or alone; the brand's short name when both are missing. */
  lemma AliasMeaning(c: Candidate)
    ensures var place := c.city + (if c.city == "" || c.state == "" then "" else ", ") + c.state;
      && (c.brand != "" && place != "" ==> Alias(c) == c.brand + " (" + place + ")")
      && (c.brand == "" || place == "" ==> Alias(c) == if c.brand + place != "" then c.brand + place else c.brandName)
  {
  }

  // ----- The specification -----

  predicate Accepted(c: Candidate) { c.choices != [] && !Blank(c.guid) }

  /** A candidate counts when it has some choice and a visible character in its GUID. */
  lemma AcceptedMeaning(c: Candidate)
    ensures Accepted(c) <==> |c.choices| > 0 && exists x :: x in c.guid && x !in " \t\n\r"
  {
    BlankMeaning(c.guid);
  }

  /** `k` indexes an accepted candidate for `g`. */
  predicate For(offers: seq<Candidate>, g: string, k: int) {
    0 <= k < |offers| && Accepted(offers[k]) && offers[k].guid == g
  }

  /** The first of the candidates for `g` that no other precedes. */
  ghost predicate Chosen(offers: seq<Candidate>, g: string, k: int) {
    && For(offers, g, k)
    && forall j :: For(offers, g, j) ==>
         !Preferred(offers[j], offers[k]) && (j < k ==> Preferred(offers[k], offers[j]))
  }

  ghost predicate Specific(offers: seq<Candidate>, g: string) {
    exists k :: For(offers, g, k) && offers[k].homepage != DIRECTORY
  }

  ghost function Aliases(offers: seq<Candidate>, g: string): set<string> {
    set k | 0 <= k < |offers| && For(offers, g, k) :: Alias(offers[k])
  }

  /** A candidate preferred to all before it: the ones that were selected for a while. */
  ghost predicate Record(offers: seq<Candidate>, g: string, k: int) {
    For(offers, g, k) && forall j :: j < k && For(offers, g, j) ==> Preferred(offers[k], offers[j])
  }

  ghost predicate SpecificRecord(offers: seq<Candidate>, g: string, k: int) {
    Record(offers, g, k) && offers[k].homepage != DIRECTORY
  }

  /**
   Whose homepage the selected candidate ends up with: that of the last one selected for a while
   that has a specific page, or, if none of those has, that of the first one offered that has.
   */
  ghost predicate Giver(offers: seq<Candidate>, g: string, j: int) {
    || (SpecificRecord(offers, g, j) && forall i :: i > j ==> !SpecificRecord(offers, g, i))
    || ((forall i :: !SpecificRecord(offers, g, i))
        && For(offers, g, j) && offers[j].homepage != DIRECTORY
        && forall i :: i < j && For(offers, g, i) ==> offers[i].homepage == DIRECTORY)
  }

  ghost predicate HomepageIs(offers: seq<Candidate>, g: string, homepage: string) {
    if Specific(offers, g) then exists j :: Giver(offers, g, j) && offers[j].homepage == homepage
    else homepage == DIRECTORY
  }

  ghost predicate Describes(offers: seq<Candidate>, g: string, group: Group) {
    && group.aliases == Aliases(offers, g)
    && HomepageIs(offers, g, group.selected.homepage)
    && exists k :: Chosen(offers, g, k) && group.selected == offers[k].(homepage := group.selected.homepage)
  }

  /** The state of the fold: a group for every GUID seen. */
  ghost predicate Gathered(offers: seq<Candidate>, groups: map<string, Group>) {
    && (forall g :: g in groups <==> exists k :: For(offers, g, k))
    && forall g :: g in groups ==> Describes(offers, g, groups[g])
  }

  /** The result: a service survives exactly when one of its candidates names a specific homepage. */
  ghost predicate Collected(offers: seq<Candidate>, groups: map<string, Group>) {
    && (forall g :: g in groups <==> Specific(offers, g))
    && forall g :: g in groups ==> Describes(offers, g, groups[g])
  }

  // ----- One more candidate -----

  function Retained(selected: Candidate, alternate: Candidate): Candidate {
    if selected.homepage == DIRECTORY && alternate.homepage != DIRECTORY
    then selected.(homepage := alternate.homepage) else selected
  }

  function Merged(group: Group, c: Candidate): Group {
    Group(if Preferred(c, group.selected) then Retained(c, group.selected) else Retained(group.selected, c),
          group.aliases + {Alias(c)})
  }

  lemma Extends(offers: seq<Candidate>, c: Candidate, g: string, k: int)
    ensures For(offers + [c], g, k) <==> For(offers, g, k) || (k == |offers| && Accepted(c) && c.guid == g)
  {
  }

  lemma AliasesExtend(offers: seq<Candidate>, c: Candidate, g: string)
    ensures Aliases(offers + [c], g)
      == Aliases(offers, g) + if Accepted(c) && c.guid == g then {Alias(c)} else {}
  {
    var all := offers + [c];
    forall a
      ensures a in Aliases(all, g) <==> a in Aliases(offers, g) || (Accepted(c) && c.guid == g && a == Alias(c))
    {
      if a in Aliases(offers, g) {
        var k :| 0 <= k < |offers| && For(offers, g, k) && Alias(offers[k]) == a;
        assert For(all, g, k) && Alias(all[k]) == a;
      }
      if Accepted(c) && c.guid == g && a == Alias(c) {
        assert For(all, g, |offers|) && Alias(all[|offers|]) == a;
      }
    }
  }

  /** Candidates of other services change nothing. */
  lemma OtherService(offers: seq<Candidate>, c: Candidate, g: string, group: Group)
    requires Describes(offers, g, group) && !(Accepted(c) && c.guid == g)
    ensures Describes(offers + [c], g, group)
  {
    AliasesExtend(offers, c, g);
    hide Alias, Aliases, Preferred;
    var all := offers + [c];
    forall k: int ensures For(all, g, k) <==> For(offers, g, k) {
      Extends(offers, c, g, k);
    }
    var k :| Chosen(offers, g, k) && group.selected == offers[k].(homepage := group.selected.homepage);
    assert Chosen(all, g, k);
    SameHomepage(offers, c, g, group.selected.homepage);
  }

  /** Whether a candidate was selected for a while does not depend on later ones. */
  lemma RecordExtends(offers: seq<Candidate>, c: Candidate, g: string, k: int)
    ensures Record(offers + [c], g, k) <==>
      if k < |offers| then Record(offers, g, k)
      else k == |offers| && Accepted(c) && c.guid == g && forall j :: For(offers, g, j) ==> Preferred(c, offers[j])
    ensures 0 <= k < |offers| ==> (offers + [c])[k] == offers[k]
  {
    hide Preferred, Accepted;
    var all := offers + [c];
    forall j: int
      ensures For(all, g, j) <==> For(offers, g, j) || (j == |offers| && Accepted(c) && c.guid == g)
    {
      Extends(offers, c, g, j);
    }
    if Record(all, g, k) && k == |offers| {
      forall j | For(offers, g, j)
        ensures Preferred(c, offers[j])
      {
        assert For(all, g, j) && all[j] == offers[j];
      }
    }
    if Record(all, g, k) && k < |offers| {
      forall j | j < k && For(offers, g, j)
        ensures Preferred(offers[k], offers[j])
      {
        assert For(all, g, j) && all[j] == offers[j];
      }
    }
  }

  lemma SameHomepage(offers: seq<Candidate>, c: Candidate, g: string, homepage: string)
    requires HomepageIs(offers, g, homepage) && !(Accepted(c) && c.guid == g)
    ensures HomepageIs(offers + [c], g, homepage)
  {
    hide Preferred;
    var all := offers + [c];
    forall k: int
      ensures For(all, g, k) <==> For(offers, g, k)
      ensures SpecificRecord(all, g, k) <==> SpecificRecord(offers, g, k)
    {
      Extends(offers, c, g, k);
      RecordExtends(offers, c, g, k);
    }
    if Specific(offers, g) {
      var j :| Giver(offers, g, j) && offers[j].homepage == homepage;
      assert For(offers, g, j);
      assert For(all, g, j) && all[j].homepage != DIRECTORY;
      assert Giver(all, g, j) && all[j].homepage == homepage;
    }
  }

  lemma FirstOfService(offers: seq<Candidate>, c: Candidate)
    requires Accepted(c) && forall k :: !For(offers, c.guid, k)
    ensures Describes(offers + [c], c.guid, Group(c, {Alias(c)}))
  {
    var all, n := offers + [c], |offers|;
    AliasesExtend(offers, c, c.guid);
    assert Aliases(offers, c.guid) == {};
    hide Alias, Aliases, Preferred;
    forall k: int ensures For(all, c.guid, k) <==> k == n {
      Extends(offers, c, c.guid, k);
    }
    PreferredOrder(c, c, c);
    assert Chosen(all, c.guid, n);
    assert Record(all, c.guid, n);
    if c.homepage != DIRECTORY {
      assert SpecificRecord(all, c.guid, n) && Giver(all, c.guid, n);
      assert For(all, c.guid, n) && all[n].homepage != DIRECTORY;
    }
  }

  lemma SameService(offers: seq<Candidate>, c: Candidate, group: Group)
    requires Accepted(c) && Describes(offers, c.guid, group)
    ensures Describes(offers + [c], c.guid, Merged(group, c))
  {
    var all, n, g := offers + [c], |offers|, c.guid;
    AliasesExtend(offers, c, g);
    hide Alias, Aliases, HomepageIs;
    var k :| Chosen(offers, g, k) && group.selected == offers[k].(homepage := group.selected.homepage);
    SamePreference(offers[k], group.selected, c);
    HomepageExtends(offers, c, k, group.selected.homepage);
    ChosenExtends(offers, c, k);
    hide Preferred, Chosen;
  }

  lemma ChosenExtends(offers: seq<Candidate>, c: Candidate, k: int)
    requires Accepted(c) && Chosen(offers, c.guid, k)
    ensures Chosen(offers + [c], c.guid, if Preferred(c, offers[k]) then |offers| else k)
    ensures 0 <= k < |offers| && (offers + [c])[k] == offers[k] && (offers + [c])[|offers|] == c
  {
    var all, n, g := offers + [c], |offers|, c.guid;
    BeatsAll(offers, c, k);
    hide Preferred, Accepted;
    forall j: int ensures For(all, g, j) <==> For(offers, g, j) || j == n {
      Extends(offers, c, g, j);
    }
  }

  /** A candidate preferred to the chosen one is preferred to every one. */
  lemma BeatsAll(offers: seq<Candidate>, c: Candidate, k: int)
    requires Chosen(offers, c.guid, k)
    ensures !Preferred(c, c)
    ensures Preferred(c, offers[k]) ==>
      forall j :: For(offers, c.guid, j) ==> Preferred(c, offers[j]) && !Preferred(offers[j], c)
  {
    hide Preferred;
    PreferredOrder(c, c, c);
    forall j | For(offers, c.guid, j) && Preferred(c, offers[k])
      ensures Preferred(c, offers[j]) && !Preferred(offers[j], c)
    {
      PreferredOrder(c, offers[k], offers[j]);
      PreferredOrder(c, offers[j], c);
    }
  }

  /** What one more candidate does to the homepage. */
  lemma HomepageExtends(offers: seq<Candidate>, c: Candidate, k: int, homepage: string)
    requires Accepted(c) && Chosen(offers, c.guid, k) && HomepageIs(offers, c.guid, homepage)
    ensures HomepageIs(offers + [c], c.guid,
      if Preferred(c, offers[k]) then if c.homepage != DIRECTORY then c.homepage else homepage
      else if homepage == DIRECTORY then c.homepage else homepage)
  {
    var all, n, g := offers + [c], |offers|, c.guid;
    SpecificExtends(offers, c);
    RecordsExtend(offers, c, k);
    hide Preferred, Chosen, SpecificRecord;
    if Preferred(c, offers[k]) && c.homepage != DIRECTORY {
      assert Giver(all, g, n);
    } else if Specific(offers, g) {
      var j :| Giver(offers, g, j) && offers[j].homepage == homepage;
      GiverFor(offers, g, j);
      GiverStays(offers, c, g, j);
    } else if c.homepage != DIRECTORY {
      SpecificRecordFor(offers, g);
      assert Giver(all, g, n);
    }
  }

  /** The records with a specific page, after one more candidate. */
  lemma RecordsExtend(offers: seq<Candidate>, c: Candidate, k: int)
    requires Accepted(c) && Chosen(offers, c.guid, k)
    ensures forall j :: For(offers + [c], c.guid, j) <==> For(offers, c.guid, j) || j == |offers|
    ensures forall j :: SpecificRecord(offers + [c], c.guid, j) <==>
      SpecificRecord(offers, c.guid, j) || (j == |offers| && Preferred(c, offers[k]) && c.homepage != DIRECTORY)
  {
    BeatsAll(offers, c, k);
    hide Preferred;
    forall j: int
      ensures For(offers + [c], c.guid, j) <==> For(offers, c.guid, j) || j == |offers|
      ensures SpecificRecord(offers + [c], c.guid, j) <==>
        SpecificRecord(offers, c.guid, j) || (j == |offers| && Preferred(c, offers[k]) && c.homepage != DIRECTORY)
    {
      Extends(offers, c, c.guid, j);
      RecordExtends(offers, c, c.guid, j);
    }
  }

  lemma SpecificRecordFor(offers: seq<Candidate>, g: string)
    ensures forall j :: SpecificRecord(offers, g, j) ==> For(offers, g, j) && offers[j].homepage != DIRECTORY
  {
  }

  /** The giver stays the same unless a new record with a specific page comes. */
  lemma GiverStays(offers: seq<Candidate>, c: Candidate, g: string, j: int)
    requires Giver(offers, g, j) && For(offers, g, j)
    requires forall i :: For(offers + [c], g, i) <==> For(offers, g, i) || i == |offers|
    requires forall i :: SpecificRecord(offers + [c], g, i) <==> SpecificRecord(offers, g, i)
    ensures Giver(offers + [c], g, j) && (offers + [c])[j] == offers[j]
  {
    hide SpecificRecord, Accepted;
  }

  lemma GiverFor(offers: seq<Candidate>, g: string, j: int)
    requires Giver(offers, g, j)
    ensures For(offers, g, j) && offers[j].homepage != DIRECTORY
  {
  }

  lemma SpecificExtends(offers: seq<Candidate>, c: Candidate)
    requires Accepted(c)
    ensures Specific(offers + [c], c.guid) <==> Specific(offers, c.guid) || c.homepage != DIRECTORY
  {
    var all := offers + [c];
    if c.homepage != DIRECTORY {
      assert For(all, c.guid, |offers|) && all[|offers|].homepage != DIRECTORY;
    }
    if Specific(offers, c.guid) {
      var k :| For(offers, c.guid, k) && offers[k].homepage != DIRECTORY;
      assert For(all, c.guid, k) && all[k].homepage != DIRECTORY;
    }
  }

  /** The comparison never looks at homepages. */
  lemma SamePreference(a: Candidate, b: Candidate, c: Candidate)
    requires b == a.(homepage := b.homepage)
    ensures Preferred(c, a) <==> Preferred(c, b)
  {
  }

  // ----- The computation -----

  /** One turn of the fold. */
  function Offered(groups: map<string, Group>, c: Candidate): map<string, Group> {
    if !Accepted(c) then groups
    else if c.guid !in groups then groups[c.guid := Group(c, {Alias(c)})]
    else groups[c.guid := Merged(groups[c.guid], c)]
  }

  function Grouped(offers: seq<Candidate>): map<string, Group> {
    if offers == [] then map[] else Offered(Grouped(offers[..|offers| - 1]), offers[|offers| - 1])
  }

  /** The services of a sequence of candidates, as one function of it. */
  function Services(offers: seq<Candidate>): map<string, Group> {
    map g | g in Grouped(offers) && Grouped(offers)[g].selected.homepage != DIRECTORY :: Grouped(offers)[g]
  }

  /** The fold over the streams of all items, and the removal of services without a page. */
  method CollectServices(offers: seq<Candidate>) returns (services: map<string, Group>)
    ensures services == Services(offers) && Collected(offers, services)
  {
    hide Collected;
    services := map[];
    var i := 0;
    while i < |offers|
      invariant 0 <= i <= |offers|
      invariant services == Grouped(offers[..i])
    {
      assert offers[..i + 1][..i] == offers[..i];
      services := Gather(services, offers[i]);
      i := i + 1;
    }
    assert offers[..i] == offers;
    services := map g | g in services && services[g].selected.homepage != DIRECTORY :: services[g];
    ServicesCollected(offers);
  }

  /** One turn of the loop: groups that describe the candidates so far come to describe one more. */
  method Gather(groups: map<string, Group>, c: Candidate) returns (after: map<string, Group>)
    ensures after == Offered(groups, c)
    ensures forall offers :: Gathered(offers, groups) ==> Gathered(offers + [c], after)
  {
    forall offers | Gathered(offers, groups)
      ensures Gathered(offers + [c], Offered(groups, c))
    {
      OfferedGathered(offers, groups, c);
    }
    if c.choices == [] || Blank(c.guid) {
      return groups;
    }
    if c.guid !in groups {
      return groups[c.guid := Group(c, {Alias(c)})];
    }
    var group := groups[c.guid];
    var aliases := group.aliases + {Alias(c)};
    if Preferred(c, group.selected) {
      after := groups[c.guid := Group(Retained(c, group.selected), aliases)];
    } else {
      after := groups[c.guid := Group(Retained(group.selected, c), aliases)];
    }
  }

  lemma {:induction false} GroupedGathered(offers: seq<Candidate>)
    ensures Gathered(offers, Grouped(offers))
  {
    if offers != [] {
      var n := |offers| - 1;
      GroupedGathered(offers[..n]);
      assert offers[..n] + [offers[n]] == offers;
      OfferedGathered(offers[..n], Grouped(offers[..n]), offers[n]);
    }
  }

  lemma OfferedGathered(offers: seq<Candidate>, groups: map<string, Group>, c: Candidate)
    requires Gathered(offers, groups)
    ensures Gathered(offers + [c], Offered(groups, c))
  {
    hide Describes, Preferred, Alias, Merged;
    var all := offers + [c];
    forall g, k: int ensures For(all, g, k) <==> For(offers, g, k) || (k == |offers| && Accepted(c) && c.guid == g) {
      Extends(offers, c, g, k);
    }
    forall g | g in groups && !(Accepted(c) && c.guid == g)
      ensures Describes(all, g, groups[g])
    {
      OtherService(offers, c, g, groups[g]);
    }
    if Accepted(c) {
      assert For(all, c.guid, |offers|);
      if c.guid in groups {
        SameService(offers, c, groups[c.guid]);
      } else {
        FirstOfService(offers, c);
      }
    }
  }

  /** The computed services are exactly the ones described. */
  lemma ServicesCollected(offers: seq<Candidate>)
    ensures Collected(offers, Services(offers))
  {
    GroupedGathered(offers);
    hide Describes, Accepted;
    forall g | g in Grouped(offers)
      ensures Grouped(offers)[g].selected.homepage != DIRECTORY <==> Specific(offers, g)
    {
      DescribedHomepage(offers, g, Grouped(offers)[g]);
    }
    forall g | Specific(offers, g)
      ensures g in Grouped(offers)
    {
      var k :| For(offers, g, k) && offers[k].homepage != DIRECTORY;
    }
  }

  /** Which services survive, and under which names, in the fields of what was offered. */
  lemma SurvivorsMeaning(offers: seq<Candidate>, g: string)
    ensures g in Services(offers) <==> exists c ::
      && c in offers && c.guid == g && |c.choices| > 0 && (exists x :: x in g && x !in " \t\n\r")
      && c.homepage != "https://www.npr.org/stations"
    ensures g in Services(offers) ==>
      forall alias :: alias in Services(offers)[g].aliases <==>
        exists c :: c in offers && c.guid == g && |c.choices| > 0 && alias == Alias(c)
  {
    ServicesCollected(offers);
    forall c: Candidate
      ensures Accepted(c) <==> |c.choices| > 0 && exists x :: x in c.guid && x !in " \t\n\r"
    {
      AcceptedMeaning(c);
    }
    hide Services, Accepted, HomepageIs, Chosen, Alias;
    if Specific(offers, g) {
      var k :| For(offers, g, k) && offers[k].homepage != DIRECTORY;
      assert offers[k] in offers;
    }
    if c :| c in offers && c.guid == g && |c.choices| > 0 && (exists x :: x in g && x !in " \t\n\r") && c.homepage != DIRECTORY {
      var k :| 0 <= k < |offers| && offers[k] == c;
      assert For(offers, g, k);
    }
    if Specific(offers, g) {
      assert exists x :: x in g && x !in " \t\n\r";
      forall alias
        ensures alias in Aliases(offers, g) <==> exists c :: c in offers && c.guid == g && |c.choices| > 0 && alias == Alias(c)
      {
        if c :| c in offers && c.guid == g && |c.choices| > 0 && alias == Alias(c) {
          var k :| 0 <= k < |offers| && offers[k] == c;
          assert For(offers, g, k) && Alias(offers[k]) == alias;
        }
        if alias in Aliases(offers, g) {
          var k :| 0 <= k < |offers| && For(offers, g, k) && Alias(offers[k]) == alias;
          assert offers[k] in offers;
        }
      }
    }
  }

  lemma DescribedHomepage(offers: seq<Candidate>, g: string, group: Group)
    requires Describes(offers, g, group)
    ensures group.selected.homepage != DIRECTORY <==> Specific(offers, g)
  {
    if Specific(offers, g) {
      var j :| Giver(offers, g, j) && offers[j].homepage == group.selected.homepage;
      GiverFor(offers, g, j);
    }
  }

  // ----- Order -----

  /** What the services of any reordering of the responses have in common. */
  lemma OrderIndependent(a: seq<Candidate>, b: seq<Candidate>, x: map<string, Group>, y: map<string, Group>)
    requires multiset(a) == multiset(b) && Collected(a, x) && Collected(b, y)
    ensures x.Keys == y.Keys
    ensures forall g :: g in x ==> x[g].aliases == y[g].aliases
    ensures forall g :: g in x ==> !Preferred(x[g].selected, y[g].selected) && !Preferred(y[g].selected, x[g].selected)
  {
    hide Describes, Preferred, Alias, Aliases;
    forall g
      ensures Specific(a, g) <==> Specific(b, g)
    {
      if Specific(a, g) {
        SpecificMoves(a, b, g);
      }
      if Specific(b, g) {
        SpecificMoves(b, a, g);
      }
    }
    forall g | g in x
      ensures x[g].aliases == y[g].aliases
      ensures !Preferred(x[g].selected, y[g].selected) && !Preferred(y[g].selected, x[g].selected)
    {
      SelectedLeast(a, b, g, x[g], y[g]);
      SelectedLeast(b, a, g, y[g], x[g]);
      DescribedAliases(a, b, g, x[g], y[g]);
    }
  }

  lemma Moves(a: seq<Candidate>, b: seq<Candidate>, g: string, k: int) returns (j: int)
    requires multiset(a) == multiset(b) && For(a, g, k)
    ensures For(b, g, j) && b[j] == a[k]
  {
    assert a[k] in multiset(b);
    j :| 0 <= j < |b| && b[j] == a[k];
  }

  lemma SpecificMoves(a: seq<Candidate>, b: seq<Candidate>, g: string)
    requires multiset(a) == multiset(b) && Specific(a, g)
    ensures Specific(b, g)
  {
    var k :| For(a, g, k) && a[k].homepage != DIRECTORY;
    var j := Moves(a, b, g, k);
  }

  lemma AliasesMove(a: seq<Candidate>, b: seq<Candidate>, g: string)
    requires multiset(a) == multiset(b)
    ensures Aliases(a, g) <= Aliases(b, g)
  {
    forall alias | alias in Aliases(a, g)
      ensures alias in Aliases(b, g)
    {
      var k :| 0 <= k < |a| && For(a, g, k) && Alias(a[k]) == alias;
      var j := Moves(a, b, g, k);
      assert 0 <= j < |b| && For(b, g, j) && Alias(b[j]) == alias;
    }
  }

  lemma DescribedAliases(a: seq<Candidate>, b: seq<Candidate>, g: string, x: Group, y: Group)
    requires multiset(a) == multiset(b) && Describes(a, g, x) && Describes(b, g, y)
    ensures x.aliases == y.aliases
  {
    AliasesMove(a, b, g);
    AliasesMove(b, a, g);
  }

  /** The candidate selected from one order is not beaten by the one selected from another. */
  lemma SelectedLeast(a: seq<Candidate>, b: seq<Candidate>, g: string, x: Group, y: Group)
    requires multiset(a) == multiset(b) && Describes(a, g, x) && Describes(b, g, y)
    ensures !Preferred(y.selected, x.selected)
  {
    hide Alias, Aliases;
    var k :| Chosen(a, g, k) && x.selected == a[k].(homepage := x.selected.homepage);
    var l :| Chosen(b, g, l) && y.selected == b[l].(homepage := y.selected.homepage);
    var j := Moves(b, a, g, l);
    SamePreference(a[k], x.selected, y.selected);
    PreferredIgnoresHomepage(b[l], y.selected, a[k]);
  }

  lemma PreferredIgnoresHomepage(a: Candidate, b: Candidate, c: Candidate)
    requires b == a.(homepage := b.homepage)
    ensures Preferred(a, c) <==> Preferred(b, c)
  {
  }

  // ----- What a reordering can change, exactly -----

  predicate SameButHomepage(c: Candidate, d: Candidate) {
    c.(homepage := "") == d.(homepage := "")
  }

  /** No candidate of the service is preferred to this one. */
  ghost predicate Minimal(offers: seq<Candidate>, g: string, k: int) {
    For(offers, g, k) && forall j :: For(offers, g, j) ==> !Preferred(offers[j], offers[k])
  }

  /** The chosen candidate is minimal, and the last of those selected for a while. */
  lemma ChosenIsLastRecord(offers: seq<Candidate>, g: string, k: int)
    requires Chosen(offers, g, k)
    ensures Minimal(offers, g, k) && Record(offers, g, k)
    ensures forall i :: Record(offers, g, i) ==> i <= k
  {
  }

  /** A surviving service and what it says about its selected candidate. */
  lemma Selection(offers: seq<Candidate>, g: string) returns (k: int, j: int)
    requires Specific(offers, g)
    ensures g in Services(offers) && Chosen(offers, g, k) && Giver(offers, g, j)
    ensures Services(offers)[g].selected == offers[k].(homepage := offers[j].homepage)
  {
    ServicesCollected(offers);
    var group := Services(offers)[g];
    hide Services;
    k :| Chosen(offers, g, k) && group.selected == offers[k].(homepage := group.selected.homepage);
    j :| Giver(offers, g, j) && offers[j].homepage == group.selected.homepage;
  }

  lemma MinimalMoves(a: seq<Candidate>, b: seq<Candidate>, g: string, k: int) returns (j: int)
    requires multiset(a) == multiset(b) && Minimal(a, g, k)
    ensures Minimal(b, g, j) && b[j] == a[k]
  {
    hide Preferred;
    j := Moves(a, b, g, k);
    forall i | For(b, g, i)
      ensures !Preferred(b[i], b[j])
    {
      var l := Moves(b, a, g, i);
    }
  }

  /** The same candidates with one of them moved to the front. */
  function Front(offers: seq<Candidate>, i: nat): (r: seq<Candidate>)
    requires i < |offers|
    ensures |r| == |offers| && r[0] == offers[i]
    ensures multiset(r) == multiset(offers)
  {
    assert offers == offers[..i] + [offers[i]] + offers[i + 1..];
    [offers[i]] + offers[..i] + offers[i + 1..]
  }

  lemma ChosenIsUnique(offers: seq<Candidate>, g: string, k: int, l: int)
    requires Chosen(offers, g, k) && Chosen(offers, g, l)
    ensures k == l
  {
  }

  /** Any candidate that nothing is preferred to is selected when it comes first. */
  lemma TieFollowsOrder(offers: seq<Candidate>, g: string, i: nat)
    requires Specific(offers, g) && Minimal(offers, g, i)
    ensures g in Services(Front(offers, i)) && SameButHomepage(Services(Front(offers, i))[g].selected, offers[i])
    ensures offers[i].homepage != DIRECTORY ==> Services(Front(offers, i))[g].selected.homepage == offers[i].homepage
  {
    hide Services, Preferred;
    var b := Front(offers, i);
    SpecificMoves(offers, b, g);
    MinimalFirst(offers, b, g, i);
    var k, j := Selection(b, g);
    ChosenIsUnique(b, g, k, 0);
    if offers[i].homepage != DIRECTORY {
      assert SpecificRecord(b, g, 0);
      ChosenIsLastRecord(b, g, 0);
    }
  }

  lemma MinimalFirst(a: seq<Candidate>, b: seq<Candidate>, g: string, i: nat)
    requires multiset(a) == multiset(b) && Minimal(a, g, i) && b != [] && b[0] == a[i]
    ensures Chosen(b, g, 0) && Record(b, g, 0)
  {
    hide Preferred;
    forall l | For(b, g, l)
      ensures !Preferred(b[l], b[0])
    {
      var m := Moves(b, a, g, l);
    }
  }

  /** All candidates that may be selected agree, apart from their homepages. */
  ghost predicate TiesAgree(a: seq<Candidate>, g: string) {
    forall i, j :: Minimal(a, g, i) && Minimal(a, g, j) ==> SameButHomepage(a[i], a[j])
  }

  lemma SelectionsAgree(a: seq<Candidate>, b: seq<Candidate>, g: string)
    requires multiset(b) == multiset(a) && Specific(a, g) && Specific(b, g) && TiesAgree(a, g)
    ensures g in Services(a) && g in Services(b)
    ensures SameButHomepage(Services(b)[g].selected, Services(a)[g].selected)
  {
    hide Services, Specific, Preferred;
    var k, _ := Selection(a, g);
    var l, _ := Selection(b, g);
    ChosenIsLastRecord(a, g, k);
    ChosenIsLastRecord(b, g, l);
    var m := MinimalMoves(b, a, g, l);
  }

  /**
   Exactly when the selected candidate, apart from its homepage, is the same for every order of
   the candidates: when all those that nothing is preferred to agree.
   */
  lemma SelectionOrderFree(a: seq<Candidate>, g: string)
    requires Specific(a, g)
    ensures g in Services(a)
    ensures
      (forall b :: multiset(b) == multiset(a) ==>
         g in Services(b) && SameButHomepage(Services(b)[g].selected, Services(a)[g].selected))
      <==> TiesAgree(a, g)
  {
    hide Services, Specific, Preferred, SameButHomepage;
    var _, _ := Selection(a, g);
    if TiesAgree(a, g) {
      forall b | multiset(b) == multiset(a)
        ensures g in Services(b) && SameButHomepage(Services(b)[g].selected, Services(a)[g].selected)
      {
        SpecificMoves(a, b, g);
        SelectionsAgree(a, b, g);
      }
    }
    if forall b :: multiset(b) == multiset(a) ==>
         g in Services(b) && SameButHomepage(Services(b)[g].selected, Services(a)[g].selected)
    {
      forall i, j | Minimal(a, g, i) && Minimal(a, g, j)
        ensures SameButHomepage(a[i], a[j])
      {
        TieFollowsOrder(a, g, i);
        TieFollowsOrder(a, g, j);
        assert multiset(Front(a, i)) == multiset(a) && multiset(Front(a, j)) == multiset(a);
        SameAs(Services(a)[g].selected, Services(Front(a, i))[g].selected, a[i]);
        SameAs(Services(a)[g].selected, Services(Front(a, j))[g].selected, a[j]);
        SameAs(a[i], Services(a)[g].selected, a[j]);
      }
    }
  }

  lemma SameAs(a: Candidate, b: Candidate, c: Candidate)
    ensures SameButHomepage(b, a) && SameButHomepage(b, c) ==> SameButHomepage(a, c)
    ensures SameButHomepage(b, a) <==> SameButHomepage(a, b)
  {
  }

  /** All specific homepages offered for the service are the same. */
  ghost predicate OneHomepage(a: seq<Candidate>, g: string) {
    forall i, j :: For(a, g, i) && For(a, g, j) && a[i].homepage != DIRECTORY && a[j].homepage != DIRECTORY ==>
      a[i].homepage == a[j].homepage
  }

  /** Whichever candidate may be selected, it has the same specific homepage of its own. */
  ghost predicate OwnHomepage(a: seq<Candidate>, g: string) {
    forall i, j :: Minimal(a, g, i) && Minimal(a, g, j) ==> a[i].homepage == a[j].homepage != DIRECTORY
  }

  /**
   A selected candidate without a page of its own takes the first one offered after it, so any
   specific page of the service is reached by some order.
   */
  lemma AnyHomepage(a: seq<Candidate>, g: string, m: nat, i: nat) returns (b: seq<Candidate>)
    requires Minimal(a, g, m) && a[m].homepage == DIRECTORY
    requires For(a, g, i) && a[i].homepage != DIRECTORY
    ensures multiset(b) == multiset(a)
    ensures g in Services(b) && Services(b)[g].selected == a[m].(homepage := a[i].homepage)
  {
    hide Services, Preferred;
    var once := Front(a, i);
    var m' := if m < i then m + 1 else m;
    assert once[m'] == a[m];
    b := Front(once, m');
    assert b[0] == a[m] && b[1] == a[i];
    MinimalFirst(a, b, g, m);
    assert For(b, g, 1);
    var k, j := Selection(b, g);
    ChosenIsUnique(b, g, k, 0);
    ChosenIsLastRecord(b, g, 0);
    assert forall l :: !SpecificRecord(b, g, l);
    assert j == 1;
  }

  /**
   Exactly when the homepage of the selected candidate is the same for every order: when only one
   specific page is offered, or every candidate that may be selected has the same one of its own.
   */
  lemma HomepageOrderFree(a: seq<Candidate>, g: string)
    requires Specific(a, g)
    ensures g in Services(a)
    ensures
      (forall b :: multiset(b) == multiset(a) ==>
         g in Services(b) && Services(b)[g].selected.homepage == Services(a)[g].selected.homepage)
      <==> OneHomepage(a, g) || OwnHomepage(a, g)
  {
    hide Services, Preferred, Specific, OneHomepage;
    var _, _ := Selection(a, g);
    if OneHomepage(a, g) || OwnHomepage(a, g) {
      forall b | multiset(b) == multiset(a)
        ensures g in Services(b) && Services(b)[g].selected.homepage == Services(a)[g].selected.homepage
      {
        SpecificMoves(a, b, g);
        HomepageAgrees(a, a, b, g);
      }
    }
    if forall b :: multiset(b) == multiset(a) ==>
         g in Services(b) && Services(b)[g].selected.homepage == Services(a)[g].selected.homepage
    {
      forall i, j | Minimal(a, g, i) && Minimal(a, g, j) && !OneHomepage(a, g)
        ensures a[i].homepage == a[j].homepage != DIRECTORY
      {
        OwnOrDifferent(a, g, i);
        OwnOrDifferent(a, g, j);
      }
    }
  }

  /** Under either condition two orders give the same homepage. */
  lemma HomepageAgrees(a: seq<Candidate>, x: seq<Candidate>, y: seq<Candidate>, g: string)
    requires multiset(x) == multiset(a) && multiset(y) == multiset(a)
    requires OneHomepage(a, g) || OwnHomepage(a, g)
    requires Specific(x, g) && Specific(y, g)
    ensures g in Services(x) && g in Services(y)
    ensures Services(x)[g].selected.homepage == Services(y)[g].selected.homepage
  {
    hide Services, Preferred, Specific;
    var k, j := Selection(x, g);
    var l, m := Selection(y, g);
    GiverFor(x, g, j);
    GiverFor(y, g, m);
    if OneHomepage(a, g) {
      var j' := Moves(x, a, g, j);
      var m' := Moves(y, a, g, m);
    } else {
      OwnIsGiven(a, x, g, k, j);
      OwnIsGiven(a, y, g, l, m);
      ChosenIsLastRecord(x, g, k);
      ChosenIsLastRecord(y, g, l);
      var k' := MinimalMoves(x, a, g, k);
      var l' := MinimalMoves(y, a, g, l);
    }
  }

  /** A chosen candidate with a page of its own gives it. */
  lemma OwnIsGiven(a: seq<Candidate>, x: seq<Candidate>, g: string, k: int, j: int)
    requires multiset(x) == multiset(a) && OwnHomepage(a, g) && Chosen(x, g, k) && Giver(x, g, j)
    ensures j == k
  {
    hide Preferred;
    ChosenIsLastRecord(x, g, k);
    var k' := MinimalMoves(x, a, g, k);
    assert SpecificRecord(x, g, k);
  }

  /** If the order does not matter and several pages are offered, a minimal candidate has the final one itself. */
  lemma OwnOrDifferent(a: seq<Candidate>, g: string, i: int)
    requires Specific(a, g) && Minimal(a, g, i) && !OneHomepage(a, g) && g in Services(a)
    requires forall b :: multiset(b) == multiset(a) ==>
      g in Services(b) && Services(b)[g].selected.homepage == Services(a)[g].selected.homepage
    ensures a[i].homepage == Services(a)[g].selected.homepage && a[i].homepage != DIRECTORY
  {
    hide Services, Preferred;
    if a[i].homepage == DIRECTORY {
      var p, q :| For(a, g, p) && For(a, g, q) && a[p].homepage != DIRECTORY && a[q].homepage != DIRECTORY
        && a[p].homepage != a[q].homepage;
      var x := AnyHomepage(a, g, i, p);
      var y := AnyHomepage(a, g, i, q);
    } else {
      TieFollowsOrder(a, g, i);
    }
  }

  /** Three candidates without any tie whose order decides which homepage is inherited. */
  lemma HomepageFollowsOrder(a: Candidate, b: Candidate, c: Candidate)
    requires Accepted(a) && Accepted(b) && Accepted(c) && a.guid == b.guid == c.guid
    requires Preferred(a, b) && Preferred(b, c) && a.homepage == DIRECTORY
    requires b.homepage != DIRECTORY && c.homepage != DIRECTORY && b.homepage != c.homepage
    ensures a.guid in Services([a, b, c]) && Services([a, b, c])[a.guid].selected == a.(homepage := b.homepage)
    ensures a.guid in Services([a, c, b]) && Services([a, c, b])[a.guid].selected == a.(homepage := c.homepage)
  {
    PreferredOrder(a, b, c);
    PreferredOrder(a, b, a);
    PreferredOrder(a, c, a);
    FirstAfter(a, b, c);
    FirstAfter(a, c, b);
  }

  lemma FirstAfter(a: Candidate, b: Candidate, c: Candidate)
    requires Accepted(a) && Accepted(b) && a.guid == b.guid == c.guid
    requires !Preferred(b, a) && !Preferred(c, a) && a.homepage == DIRECTORY && b.homepage != DIRECTORY
    ensures a.guid in Services([a, b, c]) && Services([a, b, c])[a.guid].selected == a.(homepage := b.homepage)
  {
    assert [a, b, c][..2] == [a, b] && [a, b][..1] == [a] && [a][..0] == [];
    hide Preferred, Alias, Accepted;
    SamePreference(a, a.(homepage := b.homepage), c);
    assert Grouped([]) == map[];
    assert Grouped([a]) == map[a.guid := Group(a, {Alias(a)})];
    assert Grouped([a, b])[a.guid].selected == a.(homepage := b.homepage);
  }
}
