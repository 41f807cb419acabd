/** Boot and shutdown order of zones by priority (lib/ZoneOrchestrationUtils.js). */
module ZonePriority {
  import opened Wrappers
  import opened Strings

  datatype Attr = Attr(name: string, value: string)
  // None stands for a list entry that is null: reading its name throws.
  datatype Configuration = WithoutAttrs | WithAttrs(attrs: seq<Option<Attr>>)
  datatype Zone = Zone(name: string, status: string, configuration: Configuration)
  datatype Entry = Entry(name: string, priority: int, state: string, configuration: Configuration)
  datatype Group = Group(range: int, zones: seq<Entry>)

  const DEFAULT_PRIORITY := 95

  predicate NamesPriority(attr: Attr) {
    attr.name == "boot_priority" || attr.name == "shutdown_priority"
  }

  function PriorityOf(parseInt: string -> Option<int>, attrs: seq<Option<Attr>>): (priority: int)
    ensures 1 <= priority <= 100
  {
    if |attrs| == 0 || attrs[0].None? then DEFAULT_PRIORITY
    else if !NamesPriority(attrs[0].value) then PriorityOf(parseInt, attrs[1..])
    else match parseInt(attrs[0].value.value)
      case Some(n) => if 1 <= n <= 100 then n else DEFAULT_PRIORITY
      case None => DEFAULT_PRIORITY
  }

  /** The first of the two attributes decides, also when its value is no priority. */
  function ExtractZonePriority(parseInt: string -> Option<int>, configuration: Configuration): (priority: int)
    ensures 1 <= priority <= 100
  {
    if configuration.WithoutAttrs? then DEFAULT_PRIORITY else PriorityOf(parseInt, configuration.attrs)
  }

  /** Neither null nor one of the two attributes. */
  predicate Passed(entry: Option<Attr>) {
    entry.Some? && entry.value.name !in {"boot_priority", "shutdown_priority"}
  }

  /**
   The first entry that does not pass decides, whatever follows: a number from 1 to 100 is the priority. Everything
   else, and having no such entry, makes it 95.
   */
  lemma {:induction false} FirstAttributeDecides(parseInt: string -> Option<int>, attrs: seq<Option<Attr>>, i: nat)
    requires i <= |attrs| && forall j :: 0 <= j < i ==> Passed(attrs[j])
    ensures var priority := ExtractZonePriority(parseInt, WithAttrs(attrs));
      (i < |attrs| && attrs[i].Some? && !Passed(attrs[i]) ==>
        match parseInt(attrs[i].value.value)
        case None => priority == 95
        case Some(n) => if 1 <= n <= 100 then priority == n else priority == 95) &&
      (i == |attrs| || attrs[i].None? ==> priority == 95)
    decreases i
  {
    if i > 0 {
      assert Passed(attrs[0]);
      FirstAttributeDecides(parseInt, attrs[1..], i - 1);
    }
  }

  function EntryOf(parseInt: string -> Option<int>, zone: Zone): (entry: Entry)
    ensures 1 <= entry.priority <= 100
  {
    Entry(zone.name, ExtractZonePriority(parseInt, zone.configuration), zone.status, zone.configuration)
  }

  function Entries(parseInt: string -> Option<int>, zones: seq<Zone>): (entries: seq<Entry>)
    ensures |entries| == |zones|
    ensures InRange(entries)
  {
    if |zones| == 0 then [] else Entries(parseInt, Init(zones)) + [EntryOf(parseInt, Last(zones))]
  }

  predicate InRange(entries: seq<Entry>) {
    forall i :: 0 <= i < |entries| ==> 1 <= entries[i].priority <= 100
  }

  // ---- Sorting ----

  predicate Sorted(entries: seq<Entry>) {
    forall i, j :: 0 <= i < j < |entries| ==> entries[i].priority <= entries[j].priority
  }

  /** The entries whose priority is from low to high, in their order. */
  function Between(entries: seq<Entry>, low: int, high: int): (some: seq<Entry>) {
    if |entries| == 0 then []
    else if low <= Last(entries).priority <= high then Between(Init(entries), low, high) + [Last(entries)]
    else Between(Init(entries), low, high)
  }

  /** The same entries, those of one priority in the same order. */
  ghost predicate StableRearrangement(a: seq<Entry>, b: seq<Entry>) {
    forall p :: Between(a, p, p) == Between(b, p, p)
  }

  function Insert(entries: seq<Entry>, x: Entry): seq<Entry> {
    if |entries| == 0 || Last(entries).priority <= x.priority then entries + [x]
    else Insert(Init(entries), x) + [Last(entries)]
  }

  /** What a stable sort by priority returns; `SortIsUnique` shows that there is no choice. */
  function StableSort(entries: seq<Entry>): seq<Entry> {
    if |entries| == 0 then [] else Insert(StableSort(Init(entries)), Last(entries))
  }

  lemma BetweenPush(entries: seq<Entry>, x: Entry, low: int, high: int)
    ensures Between(entries + [x], low, high) ==
      if low <= x.priority <= high then Between(entries, low, high) + [x] else Between(entries, low, high)
  {
    assert Init(entries + [x]) == entries;
  }

  lemma {:induction false} BetweenConcat(a: seq<Entry>, b: seq<Entry>, low: int, high: int)
    ensures Between(a + b, low, high) == Between(a, low, high) + Between(b, low, high)
  {
    if |b| == 0 {
      assert a + b == a;
    } else {
      BetweenConcat(a, Init(b), low, high);
      assert Init(a + b) == a + Init(b) && Last(a + b) == Last(b);
    }
  }

  lemma {:induction false} BetweenMembers(entries: seq<Entry>, low: int, high: int)
    ensures forall e :: e in Between(entries, low, high) <==> e in entries && low <= e.priority <= high
  {
    if |entries| > 0 {
      BetweenMembers(Init(entries), low, high);
      assert entries == Init(entries) + [Last(entries)];
    }
  }

  lemma {:induction false} BetweenWithin(entries: seq<Entry>, low: int, high: int, p: int)
    ensures Between(Between(entries, low, high), p, p) == if low <= p <= high then Between(entries, p, p) else []
  {
    if |entries| > 0 {
      BetweenWithin(Init(entries), low, high, p);
      if low <= Last(entries).priority <= high {
        BetweenPush(Between(Init(entries), low, high), Last(entries), p, p);
      }
    }
  }

  lemma {:induction false} InsertKeepsOrder(entries: seq<Entry>, x: Entry, p: int)
    ensures Between(Insert(entries, x), p, p) == Between(entries + [x], p, p)
  {
    BetweenPush(entries, x, p, p);
    if |entries| > 0 && Last(entries).priority > x.priority {
      InsertKeepsOrder(Init(entries), x, p);
      BetweenPush(Insert(Init(entries), x), Last(entries), p, p);
      BetweenPush(Init(entries), x, p, p);
    }
  }

  lemma {:induction false} InsertSorted(entries: seq<Entry>, x: Entry)
    requires Sorted(entries)
    ensures Sorted(Insert(entries, x))
  {
    if |entries| > 0 && Last(entries).priority > x.priority {
      InsertSorted(Init(entries), x);
      var rest := Insert(Init(entries), x);
      InsertMembers(Init(entries), x);
      assert entries == Init(entries) + [Last(entries)];
      forall i | 0 <= i < |rest| ensures rest[i].priority <= Last(entries).priority {
        assert rest[i] in rest && rest[i] in Init(entries) + [x];
      }
    }
  }

  ghost predicate SameMembers(a: seq<Entry>, b: seq<Entry>) {
    forall e :: e in a <==> e in b
  }

  lemma {:induction false} InsertCounts(entries: seq<Entry>, x: Entry)
    ensures multiset(Insert(entries, x)) == multiset(entries) + multiset{x}
  {
    if |entries| > 0 && Last(entries).priority > x.priority {
      InsertCounts(Init(entries), x);
      assert entries == Init(entries) + [Last(entries)];
    }
  }

  lemma {:induction false} InsertMembers(entries: seq<Entry>, x: Entry)
    ensures SameMembers(entries + [x], Insert(entries, x))
  {
    if |entries| > 0 && Last(entries).priority > x.priority {
      InsertMembers(Init(entries), x);
      assert entries == Init(entries) + [Last(entries)];
    }
  }

  lemma InsertIsStable(entries: seq<Entry>, sorted: seq<Entry>, x: Entry)
    requires StableRearrangement(entries, sorted)
    ensures StableRearrangement(entries + [x], Insert(sorted, x))
  {
    forall p ensures Between(entries + [x], p, p) == Between(Insert(sorted, x), p, p) {
      InsertKeepsOrder(sorted, x, p);
      BetweenPush(sorted, x, p, p);
      BetweenPush(entries, x, p, p);
      assert Between(entries, p, p) == Between(sorted, p, p);
    }
  }

  lemma {:induction false} SortMembers(entries: seq<Entry>)
    ensures SameMembers(entries, StableSort(entries)) && multiset(StableSort(entries)) == multiset(entries)
  {
    if |entries| > 0 {
      SortMembers(Init(entries));
      InsertMembers(StableSort(Init(entries)), Last(entries));
      InsertCounts(StableSort(Init(entries)), Last(entries));
      assert entries == Init(entries) + [Last(entries)];
    }
  }

  lemma {:induction false} SortIsStable(entries: seq<Entry>)
    ensures StableRearrangement(entries, StableSort(entries))
  {
    if |entries| > 0 {
      SortIsStable(Init(entries));
      InsertIsStable(Init(entries), StableSort(Init(entries)), Last(entries));
      assert entries == Init(entries) + [Last(entries)];
    }
  }

  lemma {:induction false} StableSortIsASort(entries: seq<Entry>)
    ensures Sorted(StableSort(entries)) && multiset(StableSort(entries)) == multiset(entries)
    ensures StableRearrangement(entries, StableSort(entries))
    ensures SameMembers(entries, StableSort(entries))
  {
    SortMembers(entries);
    SortIsStable(entries);
    if |entries| > 0 {
      StableSortIsASort(Init(entries));
      InsertSorted(StableSort(Init(entries)), Last(entries));
    }
  }

  lemma RearrangedMember(a: seq<Entry>, b: seq<Entry>, e: Entry)
    requires StableRearrangement(a, b) && e in a
    ensures e in b
  {
    BetweenMembers(a, e.priority, e.priority);
    BetweenMembers(b, e.priority, e.priority);
    assert e in Between(b, e.priority, e.priority);
  }

  /** A sorted list is determined by its stable rearrangement class. */
  lemma {:induction false} SortIsUnique(a: seq<Entry>, b: seq<Entry>)
    requires Sorted(a) && Sorted(b) && StableRearrangement(a, b)
    ensures a == b
    decreases |a|
  {
    if |a| == 0 || |b| == 0 {
      if |a| > 0 {
        RearrangedMember(a, b, Last(a));
      }
      if |b| > 0 {
        RearrangedMember(b, a, Last(b));
      }
    } else {
      SameLast(a, b);
      forall p ensures Between(Init(a), p, p) == Between(Init(b), p, p) {
        assert Between(a, p, p) == Between(b, p, p);
        assert p == Last(a).priority ==> Init(Between(a, p, p)) == Between(Init(a), p, p);
        assert p == Last(a).priority ==> Init(Between(b, p, p)) == Between(Init(b), p, p);
      }
      SortIsUnique(Init(a), Init(b));
      assert a == Init(a) + [Last(a)] && b == Init(b) + [Last(b)];
    }
  }

  lemma SameLast(a: seq<Entry>, b: seq<Entry>)
    requires Sorted(a) && Sorted(b) && StableRearrangement(a, b) && |a| > 0 && |b| > 0
    ensures Last(a) == Last(b)
  {
    var p, q := Last(a).priority, Last(b).priority;
    assert Between(a, p, p) == Between(b, p, p) && Between(a, q, q) == Between(b, q, q);
    BetweenMembers(a, q, q);
    BetweenMembers(b, p, p);
    assert Last(a) in b && Last(b) in a;
    assert p <= q && q <= p;
    assert Last(Between(a, p, p)) == Last(a) && Last(Between(b, p, p)) == Last(b);
  }

  // ---- Grouping ----

  /** The priority rounded up to the next ten. */
  function GroupOf(priority: int): (group: int)
    requires 1 <= priority <= 100
    ensures group % 10 == 0 && group - 9 <= priority <= group && 10 <= group <= 100
  {
    (priority - 1) / 10 * 10 + 10
  }

  function GroupAt(entries: seq<Entry>, range: int): Group {
    Group(range, StableSort(Between(entries, range - 9, range)))
  }

  /** One group for each of the tens from `range` to 100 that has entries, rising. */
  function GroupsFrom(entries: seq<Entry>, range: int): seq<Group>
    decreases 100 - range
  {
    if range > 100 then []
    else if Between(entries, range - 9, range) == [] then GroupsFrom(entries, range + 10)
    else [GroupAt(entries, range)] + GroupsFrom(entries, range + 10)
  }

  function Flatten(groups: seq<Group>): seq<Entry> {
    if |groups| == 0 then [] else groups[0].zones + Flatten(groups[1..])
  }

  lemma FlattenOne(group: Group, groups: seq<Group>)
    ensures Flatten([group] + groups) == group.zones + Flatten(groups)
  {
    assert ([group] + groups)[1..] == groups;
  }

  lemma {:induction false} FlattenFrom(entries: seq<Entry>, range: int, p: int)
    requires range % 10 == 0
    ensures Between(Flatten(GroupsFrom(entries, range)), p, p) ==
      if range - 9 <= p <= 100 then Between(entries, p, p) else []
    decreases 100 - range
  {
    if range <= 100 {
      FlattenFrom(entries, range + 10, p);
      var here := Between(entries, range - 9, range);
      BetweenWithin(entries, range - 9, range, p);
      if here != [] {
        FlattenOne(GroupAt(entries, range), GroupsFrom(entries, range + 10));
        StableSortIsASort(here);
        BetweenConcat(StableSort(here), Flatten(GroupsFrom(entries, range + 10)), p, p);
      }
    }
  }

  lemma {:induction false} FlattenSorted(entries: seq<Entry>, range: int)
    ensures Sorted(Flatten(GroupsFrom(entries, range)))
    ensures forall e :: e in Flatten(GroupsFrom(entries, range)) ==> range - 9 <= e.priority
    decreases 100 - range
  {
    if range <= 100 {
      FlattenSorted(entries, range + 10);
      var here := Between(entries, range - 9, range);
      BetweenMembers(entries, range - 9, range);
      if here != [] {
        FlattenOne(GroupAt(entries, range), GroupsFrom(entries, range + 10));
        StableSortIsASort(here);
        SortedConcat(StableSort(here), Flatten(GroupsFrom(entries, range + 10)), range);
      }
    }
  }

  lemma SortedConcat(a: seq<Entry>, b: seq<Entry>, range: int)
    requires Sorted(a) && Sorted(b)
    requires forall e :: e in a ==> e.priority <= range
    requires forall e :: e in b ==> range < e.priority
    ensures Sorted(a + b)
  {
    forall i | 0 <= i < |a| ensures a[i].priority <= range {
      assert a[i] in a;
    }
    forall j | 0 <= j < |b| ensures range < b[j].priority {
      assert b[j] in b;
    }
  }

  lemma FlattenAll(entries: seq<Entry>, p: int)
    requires InRange(entries)
    ensures Between(Flatten(GroupsFrom(entries, 10)), p, p) == Between(entries, p, p)
  {
    FlattenFrom(entries, 10, p);
    if p < 1 || 100 < p {
      NoneOutside(entries, p);
    }
  }

  lemma {:induction false} NoneOutside(entries: seq<Entry>, p: int)
    requires InRange(entries) && (p < 1 || 100 < p)
    ensures Between(entries, p, p) == []
  {
    if |entries| > 0 {
      NoneOutside(Init(entries), p);
    }
  }

  /** Taken group after group, the shutdown order is the stable sort of all zones by priority. */
  lemma ShutdownOrderIsStableSort(entries: seq<Entry>)
    requires InRange(entries)
    ensures Flatten(GroupsFrom(entries, 10)) == StableSort(entries)
  {
    FlattenSorted(entries, 10);
    StableSortIsASort(entries);
    forall p ensures Between(Flatten(GroupsFrom(entries, 10)), p, p) == Between(StableSort(entries), p, p) {
      FlattenAll(entries, p);
    }
    SortIsUnique(Flatten(GroupsFrom(entries, 10)), StableSort(entries));
  }

  /** Groups rise, and a group holds exactly the entries with the ten priorities up to its range, sorted. */
  lemma {:induction false} GroupsAreTens(entries: seq<Entry>, range: int)
    requires range % 10 == 0
    ensures Tens(entries, GroupsFrom(entries, range), range) && RisingRanges(GroupsFrom(entries, range))
    decreases 100 - range
  {
    if range <= 100 {
      GroupsAreTens(entries, range + 10);
      if Between(entries, range - 9, range) != [] {
        GroupAtIsTen(entries, range);
        TensPrepend(entries, GroupAt(entries, range), GroupsFrom(entries, range + 10), range);
      }
    }
  }

  lemma TensPrepend(entries: seq<Entry>, group: Group, groups: seq<Group>, range: int)
    requires IsTen(entries, group) && group.range == range
    requires Tens(entries, groups, range + 10) && RisingRanges(groups)
    ensures Tens(entries, [group] + groups, range) && RisingRanges([group] + groups)
  {
  }

  lemma GroupAtIsTen(entries: seq<Entry>, range: int)
    requires range % 10 == 0 && range <= 100 && Between(entries, range - 9, range) != []
    ensures IsTen(entries, GroupAt(entries, range))
  {
    StableSortIsASort(Between(entries, range - 9, range));
    SortedHoldsTen(entries, range);
    SortedKeepsTen(entries, range);
  }

  lemma SortedHoldsTen(entries: seq<Entry>, range: int)
    requires Between(entries, range - 9, range) != []
    ensures HoldsTen(entries, GroupAt(entries, range)) && GroupAt(entries, range).zones != []
  {
    var here := Between(entries, range - 9, range);
    StableSortIsASort(here);
    BetweenMembers(entries, range - 9, range);
    assert here[0] in StableSort(here);
  }

  lemma SortedKeepsTen(entries: seq<Entry>, range: int)
    ensures KeepsTen(entries, GroupAt(entries, range))
  {
    forall p | range - 9 <= p <= range
      ensures Between(GroupAt(entries, range).zones, p, p) == Between(entries, p, p)
    {
      SortedKeepsPriority(entries, range, p);
    }
  }

  lemma SortedKeepsPriority(entries: seq<Entry>, range: int, p: int)
    requires range - 9 <= p <= range
    ensures Between(StableSort(Between(entries, range - 9, range)), p, p) == Between(entries, p, p)
  {
    StableSortIsASort(Between(entries, range - 9, range));
    BetweenWithin(entries, range - 9, range, p);
  }

  ghost predicate Tens(entries: seq<Entry>, groups: seq<Group>, range: int) {
    forall i :: 0 <= i < |groups| ==> range <= groups[i].range && IsTen(entries, groups[i])
  }

  ghost predicate RisingRanges(groups: seq<Group>) {
    forall i, j :: 0 <= i < j < |groups| ==> groups[i].range < groups[j].range
  }

  /** Exactly the entries with its ten priorities. */
  ghost predicate HoldsTen(entries: seq<Entry>, group: Group) {
    forall e :: e in group.zones <==> e in entries && group.range - 9 <= e.priority <= group.range
  }

  /** Those of one priority in their given order. */
  ghost predicate KeepsTen(entries: seq<Entry>, group: Group) {
    forall p :: group.range - 9 <= p <= group.range ==> Between(group.zones, p, p) == Between(entries, p, p)
  }

  ghost predicate IsTen(entries: seq<Entry>, group: Group) {
    group.range % 10 == 0 && group.range <= 100 && group.zones != [] && Sorted(group.zones) &&
    HoldsTen(entries, group) && KeepsTen(entries, group)
  }

  // ---- The loops ----

  predicate HasGroup(entries: seq<Entry>, g: int) {
    g % 10 == 0 && 10 <= g <= 100 && Between(entries, g - 9, g) != []
  }

  /** What the map of groups holds after some entries: the keys in the order they were first met. */
  ghost predicate Collected(entries: seq<Entry>, keys: seq<int>, byGroup: map<int, seq<Entry>>) {
    Distinct(keys) &&
    (forall g :: g in byGroup <==> g in keys) &&
    (forall g :: g in keys <==> HasGroup(entries, g)) &&
    (forall g :: g in byGroup ==> byGroup[g] == Between(entries, g - 9, g))
  }

  predicate Distinct(keys: seq<int>) {
    forall i, j :: 0 <= i < j < |keys| ==> keys[i] != keys[j]
  }

  /** Exactly one group of ten takes a further entry. */
  lemma OneGroupTakes(entries: seq<Entry>, x: Entry, g: int)
    requires 1 <= x.priority <= 100 && g % 10 == 0
    ensures Between(entries + [x], g - 9, g) ==
      if g == GroupOf(x.priority) then Between(entries, g - 9, g) + [x] else Between(entries, g - 9, g)
  {
    BetweenPush(entries, x, g - 9, g);
  }

  lemma CollectedPush(entries: seq<Entry>, keys: seq<int>, byGroup: map<int, seq<Entry>>, x: Entry)
    requires Collected(entries, keys, byGroup) && 1 <= x.priority <= 100
    ensures var g := GroupOf(x.priority);
      g in byGroup ==> Collected(entries + [x], keys, byGroup[g := byGroup[g] + [x]])
    ensures var g := GroupOf(x.priority);
      g !in byGroup ==> Collected(entries + [x], keys + [g], byGroup[g := [x]])
  {
    var g := GroupOf(x.priority);
    forall h | h % 10 == 0
      ensures HasGroup(entries + [x], h) <==> HasGroup(entries, h) || h == g
      ensures Between(entries + [x], h - 9, h) ==
        if h == g then Between(entries, h - 9, h) + [x] else Between(entries, h - 9, h)
    {
      OneGroupTakes(entries, x, h);
    }
    if g !in byGroup {
      assert !HasGroup(entries, g);
    } else {
      assert HasGroup(entries, g);
    }
  }

  predicate RisingKeys(keys: seq<int>) {
    forall i, j :: 0 <= i < j < |keys| ==> keys[i] < keys[j]
  }

  function InsertKey(keys: seq<int>, k: int): seq<int> {
    if |keys| == 0 || Last(keys) <= k then keys + [k] else InsertKey(Init(keys), k) + [Last(keys)]
  }

  /** The keys in rising order. */
  function SortKeys(keys: seq<int>): seq<int> {
    if |keys| == 0 then [] else InsertKey(SortKeys(Init(keys)), Last(keys))
  }

  lemma {:induction false} InsertKeyRises(keys: seq<int>, k: int)
    requires RisingKeys(keys) && k !in keys
    ensures RisingKeys(InsertKey(keys, k)) && forall x :: x in InsertKey(keys, k) <==> x in keys || x == k
  {
    if |keys| > 0 {
      assert keys == Init(keys) + [Last(keys)];
      if Last(keys) > k {
        InsertKeyRises(Init(keys), k);
        var rest := InsertKey(Init(keys), k);
        forall i | 0 <= i < |rest| ensures rest[i] < Last(keys) {
          assert rest[i] in rest;
        }
      }
    }
  }

  lemma {:induction false} SortKeysRises(keys: seq<int>)
    requires Distinct(keys)
    ensures RisingKeys(SortKeys(keys)) && forall x :: x in SortKeys(keys) <==> x in keys
  {
    if |keys| > 0 {
      SortKeysRises(Init(keys));
      InsertKeyRises(SortKeys(Init(keys)), Last(keys));
      assert keys == Init(keys) + [Last(keys)];
    }
  }

  function GroupsOfKeys(keys: seq<int>, byGroup: map<int, seq<Entry>>): (groups: seq<Group>)
    requires forall i :: 0 <= i < |keys| ==> keys[i] in byGroup
    ensures |groups| == |keys|
  {
    if |keys| == 0 then []
    else [Group(keys[0], StableSort(byGroup[keys[0]]))] + GroupsOfKeys(keys[1..], byGroup)
  }

  lemma {:induction false} RisingKeysGiveTheGroups(
    entries: seq<Entry>, keys: seq<int>, byGroup: map<int, seq<Entry>>, range: int)
    requires range % 10 == 0 && range >= 10 && RisingKeys(keys)
    requires forall g :: g in keys <==> range <= g && HasGroup(entries, g)
    requires forall i :: 0 <= i < |keys| ==>
      keys[i] in byGroup && byGroup[keys[i]] == Between(entries, keys[i] - 9, keys[i])
    ensures GroupsOfKeys(keys, byGroup) == GroupsFrom(entries, range)
    decreases 100 - range
  {
    assert |keys| > 0 ==> keys[0] in keys;
    if range > 100 {
    } else if HasGroup(entries, range) {
      RestOfKeys(entries, keys, range);
      RisingKeysGiveTheGroups(entries, keys[1..], byGroup, range + 10);
    } else {
      forall g ensures g in keys <==> range + 10 <= g && HasGroup(entries, g) {
        NextTen(entries, g, range);
      }
      RisingKeysGiveTheGroups(entries, keys, byGroup, range + 10);
    }
  }

  lemma NextTen(entries: seq<Entry>, g: int, range: int)
    requires range % 10 == 0
    ensures HasGroup(entries, g) && range < g ==> range + 10 <= g
  {
  }

  /** The smallest of the keys is the range itself; the others are the keys from the next ten on. */
  lemma RestOfKeys(entries: seq<Entry>, keys: seq<int>, range: int)
    requires range % 10 == 0 && RisingKeys(keys) && HasGroup(entries, range)
    requires forall g :: g in keys <==> range <= g && HasGroup(entries, g)
    ensures |keys| > 0 && keys[0] == range
    ensures forall g :: g in keys[1..] <==> range + 10 <= g && HasGroup(entries, g)
  {
    assert range in keys;
    assert keys[0] in keys;
    forall g ensures g in keys[1..] <==> range + 10 <= g && HasGroup(entries, g) {
      assert g in keys <==> g == keys[0] || g in keys[1..];
      assert g in keys[1..] ==> g > keys[0];
      NextTen(entries, g, range);
    }
  }

  /** The first loop: every entry goes to the end of its group. */
  method CollectGroups(
    parseInt: string -> Option<int>, zones: seq<Zone>) returns (keys: seq<int>, byGroup: map<int, seq<Entry>>)
    ensures Collected(Entries(parseInt, zones), keys, byGroup)
  {
    keys, byGroup := [], map[];
    for i := 0 to |zones|
      invariant Collected(Entries(parseInt, zones[..i]), keys, byGroup)
    {
      var entry := EntryOf(parseInt, zones[i]);
      assert Init(zones[..i + 1]) == zones[..i];
      CollectedPush(Entries(parseInt, zones[..i]), keys, byGroup, entry);
      var group := GroupOf(entry.priority);
      if group !in byGroup {
        keys, byGroup := keys + [group], byGroup[group := [entry]];
      } else {
        byGroup := byGroup[group := byGroup[group] + [entry]];
      }
    }
    assert zones[..|zones|] == zones;
  }

  method SortGroups(keys: seq<int>, byGroup: map<int, seq<Entry>>) returns (groups: seq<Group>)
    requires forall i :: 0 <= i < |keys| ==> keys[i] in byGroup
    ensures groups == GroupsOfKeys(keys, byGroup)
  {
    groups := [];
    for i := 0 to |keys|
      invariant groups + GroupsOfKeys(keys[i..], byGroup) == GroupsOfKeys(keys, byGroup)
    {
      groups := groups + [Group(keys[i], StableSort(byGroup[keys[i]]))];
      assert keys[i..][1..] == keys[i + 1..];
    }
  }

  method GroupZonesByPriority(parseInt: string -> Option<int>, zones: seq<Zone>) returns (groups: seq<Group>)
    ensures groups == GroupsFrom(Entries(parseInt, zones), 10)
  {
    var keys, byGroup := CollectGroups(parseInt, zones);
    SortKeysRises(keys);
    var sorted := SortKeys(keys);
    assert forall i :: 0 <= i < |sorted| ==> sorted[i] in sorted;
    RisingKeysGiveTheGroups(Entries(parseInt, zones), sorted, byGroup, 10);
    groups := SortGroups(sorted, byGroup);
  }

  lemma {:induction false} EntriesCarryZones(parseInt: string -> Option<int>, zones: seq<Zone>)
    ensures forall i :: 0 <= i < |zones| ==>
      var entry := Entries(parseInt, zones)[i];
      entry.name == zones[i].name && entry.state == zones[i].status && entry.configuration == zones[i].configuration &&
      entry.priority == ExtractZonePriority(parseInt, zones[i].configuration)
  {
    if |zones| > 0 {
      EntriesCarryZones(parseInt, Init(zones));
    }
  }

  /** The shutdown order holds each zone once, with its own name, state, configuration and priority. */
  lemma OrderCarriesZones(parseInt: string -> Option<int>, zones: seq<Zone>) returns (entries: seq<Entry>)
    ensures multiset(Flatten(GroupsFrom(Entries(parseInt, zones), 10))) == multiset(entries) && |entries| == |zones|
    ensures forall i :: 0 <= i < |zones| ==>
      entries[i].name == zones[i].name && entries[i].state == zones[i].status &&
      entries[i].configuration == zones[i].configuration &&
      entries[i].priority == ExtractZonePriority(parseInt, zones[i].configuration)
  {
    entries := Entries(parseInt, zones);
    EntriesCarryZones(parseInt, zones);
    ShutdownOrderIsStableSort(entries);
    StableSortIsASort(entries);
  }

  method CalculateShutdownOrder(parseInt: string -> Option<int>, zones: seq<Zone>) returns (groups: seq<Group>)
    ensures groups == GroupsFrom(Entries(parseInt, zones), 10)
    ensures Flatten(groups) == StableSort(Entries(parseInt, zones))
  {
    groups := GroupZonesByPriority(parseInt, zones);
    ShutdownOrderIsStableSort(Entries(parseInt, zones));
  }

  function Reversed<T>(s: seq<T>): (r: seq<T>)
    ensures |r| == |s| && forall i :: 0 <= i < |s| ==> r[i] == s[|s| - 1 - i]
  {
    if |s| == 0 then [] else [Last(s)] + Reversed(Init(s))
  }

  /** The same groups the other way round; inside a group priorities still rise. */
  method CalculateStartupOrder(parseInt: string -> Option<int>, zones: seq<Zone>) returns (groups: seq<Group>)
    ensures groups == Reversed(GroupsFrom(Entries(parseInt, zones), 10))
    ensures forall i, j :: 0 <= i < j < |groups| ==> groups[j].range < groups[i].range
    ensures forall i :: 0 <= i < |groups| ==> Sorted(groups[i].zones)
  {
    groups := GroupZonesByPriority(parseInt, zones);
    GroupsAreTens(Entries(parseInt, zones), 10);
    groups := Reversed(groups);
  }
}
