/** The rankings of src/visit/visit.analytics.service.ts: group the visits, count each group, sort by
    count and keep ten.

    A JavaScript object used as a dictionary is a list of keys in the order of their insertion and a
    map. It enumerates keys that are array indices first, by their value, and then the others in the
    order of their insertion. The four rankings differ only in the key and the label that they take
    from a visit. */
module TopTen {
  import opened Basics
  import Sorting

  datatype StaffRef = StaffRef(id: string, name: string, department: Option<string>)

  /** The columns that the rankings read. */
  datatype VisitRow = VisitRow(staff: Option<StaffRef>, fullName: string, email: string, reason: Option<string>)

  /** A visit counted under `key`; the group shows the label of its last visit. */
  datatype Hit<L> = Hit(key: string, name: L)

  datatype Group<L> = Group(key: string, name: L, count: nat)

  type Classifier<L> = VisitRow -> Option<Hit<L>>

  const LIMIT := 10

  // ---------- How each ranking reads a visit ----------

  function OrElse(s: Option<string>, default: string): string {
    if s.Some? && s.value != "" then s.value else default
  }

  function EmployeeHit(v: VisitRow): Option<Hit<string>> {
    if v.staff.None? then None else Some(Hit(v.staff.value.id, OrElse(Some(v.staff.value.name), "Unknown")))
  }

  /** `lower` stands for `toLowerCase`. */
  function VisitorHit(lower: string -> string): Classifier<(string, string)> {
    (v: VisitRow) => Some(Hit(lower(v.email), (v.fullName, v.email)))
  }

  function DepartmentHit(v: VisitRow): Option<Hit<()>> {
    Some(Hit(OrElse(if v.staff.Some? then v.staff.value.department else None, "No Department"), ()))
  }

  function ReasonHit(v: VisitRow): Option<Hit<()>> {
    Some(Hit(OrElse(v.reason, "No Reason"), ()))
  }

  // ---------- The order of an object's properties ----------

  const NO_INDEX := 0xFFFF_FFFF

  predicate AllDigits(s: string) {
    forall i :: 0 <= i < |s| ==> '0' <= s[i] <= '9'
  }

  function Value(s: string): nat
    requires AllDigits(s)
  {
    if s == [] then 0 else 10 * Value(s[..|s| - 1]) + (s[|s| - 1] as int - '0' as int)
  }

  /** An array index is a number below 2^32 - 1 in decimal digits without leading zeros. */
  predicate IsArrayIndex(s: string) {
    s != [] && AllDigits(s) && (s[0] == '0' ==> |s| == 1) && Value(s) < NO_INDEX
  }

  /** Array indices come first, by their value; the order of all other keys is that of their insertion. */
  function PropertyRank(s: string): int {
    if IsArrayIndex(s) then Value(s) else NO_INDEX
  }

  // ---------- What a ranking is ----------

  predicate Has<L>(hit: Classifier<L>, v: VisitRow, k: string) {
    hit(v).Some? && hit(v).value.key == k
  }

  ghost function CountOf<L>(hit: Classifier<L>, visits: seq<VisitRow>, k: string): nat {
    if visits == [] then 0
    else CountOf(hit, visits[..|visits| - 1], k) + if Has(hit, visits[|visits| - 1], k) then 1 else 0
  }

  /** The position of the first visit of a group. */
  ghost function FirstAt<L>(hit: Classifier<L>, visits: seq<VisitRow>, k: string): nat {
    if visits == [] then 0
    else if CountOf(hit, visits[..|visits| - 1], k) > 0 then FirstAt(hit, visits[..|visits| - 1], k)
    else |visits| - 1
  }

  /** `name` is the label of the last visit of the group. */
  ghost predicate IsName<L>(hit: Classifier<L>, visits: seq<VisitRow>, k: string, name: L) {
    exists i :: 0 <= i < |visits| && hit(visits[i]) == Some(Hit(k, name)) && forall j :: i < j < |visits| ==>
      !Has(hit, visits[j], k)
  }

  /** The dictionary enumerates `a` before `b`. */
  ghost predicate Precedes<L>(hit: Classifier<L>, visits: seq<VisitRow>, a: string, b: string) {
    || PropertyRank(a) < PropertyRank(b)
    || (PropertyRank(a) == PropertyRank(b) && FirstAt(hit, visits, a) < FirstAt(hit, visits, b))
  }

  /** More visits, or as many and enumerated earlier. */
  ghost predicate Beats<L>(hit: Classifier<L>, visits: seq<VisitRow>, a: string, b: string) {
    || CountOf(hit, visits, a) > CountOf(hit, visits, b)
    || (CountOf(hit, visits, a) == CountOf(hit, visits, b) && Precedes(hit, visits, a, b))
  }

  ghost predicate IsGroup<L>(hit: Classifier<L>, visits: seq<VisitRow>, g: Group<L>) {
    g.count > 0 && g.count == CountOf(hit, visits, g.key) && IsName(hit, visits, g.key, g.name)
  }

  predicate Listed<L>(top: seq<Group<L>>, k: string) {
    exists i :: 0 <= i < |top| && top[i].key == k
  }

  /** At most ten groups, each beating the next ones and every group left out; none is left out
      unless ten are in. */
  ghost predicate IsTopTen<L>(hit: Classifier<L>, visits: seq<VisitRow>, top: seq<Group<L>>) {
    && |top| <= LIMIT
    && (forall i :: 0 <= i < |top| ==> IsGroup(hit, visits, top[i]))
    && (forall i, j :: 0 <= i < j < |top| ==> Beats(hit, visits, top[i].key, top[j].key))
    && (forall k :: CountOf(hit, visits, k) > 0 && !Listed(top, k) ==>
          |top| == LIMIT && forall i :: 0 <= i < |top| ==> Beats(hit, visits, top[i].key, k))
  }

  // ---------- The grouping loop ----------

  ghost predicate SameKeys<L>(order: seq<string>, counts: map<string, Group<L>>) {
    forall k :: k in counts <==> k in order
  }

  ghost predicate CountsRight<L>(hit: Classifier<L>, visits: seq<VisitRow>, counts: map<string, Group<L>>) {
    && (forall k :: k in counts <==> CountOf(hit, visits, k) > 0)
    && (forall k :: k in counts ==> counts[k].key == k && IsGroup(hit, visits, counts[k]))
  }

  ghost predicate OrderRight<L>(hit: Classifier<L>, visits: seq<VisitRow>, order: seq<string>) {
    forall i, j :: 0 <= i < j < |order| ==> FirstAt(hit, visits, order[i]) < FirstAt(hit, visits, order[j])
  }

  /** The dictionary after the loop has read `visits`. */
  ghost predicate IsTally<L>(hit: Classifier<L>, visits: seq<VisitRow>, order: seq<string>,
                             counts: map<string, Group<L>>) {
    SameKeys(order, counts) && CountsRight(hit, visits, counts) && OrderRight(hit, visits, order)
  }

  lemma {:induction false} FirstIsBefore<L>(hit: Classifier<L>, visits: seq<VisitRow>, k: string)
    requires CountOf(hit, visits, k) > 0
    ensures FirstAt(hit, visits, k) < |visits| && Has(hit, visits[FirstAt(hit, visits, k)], k)
  {
    var seen := visits[..|visits| - 1];
    if CountOf(hit, seen, k) > 0 {
      FirstIsBefore(hit, seen, k);
    }
  }

  lemma OneMore<L>(hit: Classifier<L>, seen: seq<VisitRow>, v: VisitRow, k: string)
    ensures CountOf(hit, seen + [v], k) == CountOf(hit, seen, k) + if Has(hit, v, k) then 1 else 0
    ensures FirstAt(hit, seen + [v], k) == if CountOf(hit, seen, k) > 0 then FirstAt(hit, seen, k) else |seen|
  {
    assert (seen + [v])[..|seen|] == seen;
  }

  lemma NameStays<L>(hit: Classifier<L>, seen: seq<VisitRow>, v: VisitRow, k: string, name: L)
    requires IsName(hit, seen, k, name) && !Has(hit, v, k)
    ensures IsName(hit, seen + [v], k, name)
  {
    var all := seen + [v];
    var i :| 0 <= i < |seen| && hit(seen[i]) == Some(Hit(k, name)) && forall j :: i < j < |seen| ==>
        !Has(hit, seen[j], k);
    assert all[i] == seen[i];
    forall j | i < j < |all| ensures !Has(hit, all[j], k) {
      assert j < |seen| ==> all[j] == seen[j];
    }
  }

  lemma TallyWithoutHit<L>(hit: Classifier<L>, seen: seq<VisitRow>, v: VisitRow, order: seq<string>,
                           counts: map<string, Group<L>>)
    requires IsTally(hit, seen, order, counts) && hit(v).None?
    ensures IsTally(hit, seen + [v], order, counts)
  {
    forall k ensures CountOf(hit, seen + [v], k) == CountOf(hit, seen, k) {
      OneMore(hit, seen, v, k);
    }
    forall k | k in counts
      ensures FirstAt(hit, seen + [v], k) == FirstAt(hit, seen, k) && IsGroup(hit, seen + [v], counts[k])
    {
      OneMore(hit, seen, v, k);
      NameStays(hit, seen, v, k, counts[k].name);
    }
  }

  function CountIn<L>(counts: map<string, Group<L>>, k: string): nat {
    if k in counts then counts[k].count else 0
  }

  lemma OrderWithHit<L>(hit: Classifier<L>, seen: seq<VisitRow>, v: VisitRow, order: seq<string>,
                        counts: map<string, Group<L>>, order': seq<string>)
    requires IsTally(hit, seen, order, counts) && hit(v).Some?
    requires var h := hit(v).value; order' == (if h.key in counts then order else order + [h.key])
    ensures OrderRight(hit, seen + [v], order')
  {
    forall i | 0 <= i < |order| ensures FirstAt(hit, seen + [v], order[i]) == FirstAt(hit, seen, order[i]) < |seen| {
      assert order[i] in counts;
      OneMore(hit, seen, v, order[i]);
      FirstIsBefore(hit, seen, order[i]);
    }
    OneMore(hit, seen, v, hit(v).value.key);
  }

  lemma GroupWithHit<L>(hit: Classifier<L>, seen: seq<VisitRow>, v: VisitRow, counts: map<string, Group<L>>, k: string)
    requires CountsRight(hit, seen, counts) && hit(v).Some?
    requires k in counts || k == hit(v).value.key
    ensures var h := hit(v).value;
      IsGroup(hit, seen + [v], if k == h.key then Group(h.key, h.name, CountIn(counts, h.key) + 1) else counts[k])
  {
    OneMore(hit, seen, v, k);
    if k != hit(v).value.key {
      NameStays(hit, seen, v, k, counts[k].name);
    } else {
      assert (seen + [v])[|seen|] == v;
    }
  }

  lemma CountsWithHit<L>(hit: Classifier<L>, seen: seq<VisitRow>, v: VisitRow, counts: map<string, Group<L>>,
                         counts': map<string, Group<L>>)
    requires CountsRight(hit, seen, counts) && hit(v).Some?
    requires var h := hit(v).value; counts' == counts[h.key := Group(h.key, h.name, CountIn(counts, h.key) + 1)]
    ensures CountsRight(hit, seen + [v], counts')
  {
    forall k ensures k in counts' <==> CountOf(hit, seen + [v], k) > 0 {
      OneMore(hit, seen, v, k);
    }
    forall k | k in counts' ensures counts'[k].key == k && IsGroup(hit, seen + [v], counts'[k]) {
      GroupWithHit(hit, seen, v, counts, k);
    }
  }

  lemma TallyWithHit<L>(hit: Classifier<L>, seen: seq<VisitRow>, v: VisitRow, order: seq<string>,
                        counts: map<string, Group<L>>,
                        order': seq<string>, counts': map<string, Group<L>>)
    requires IsTally(hit, seen, order, counts) && hit(v).Some?
    requires var h := hit(v).value; order' == (if h.key in counts then order else order + [h.key])
    requires var h := hit(v).value; counts' == counts[h.key := Group(h.key, h.name, CountIn(counts, h.key) + 1)]
    ensures IsTally(hit, seen + [v], order', counts')
  {
    OrderWithHit(hit, seen, v, order, counts, order');
    CountsWithHit(hit, seen, v, counts, counts');
  }

  function ByCount<L>(g: Group<L>): int {
    -(g.count as int)
  }

  /** Group, sort and cut, as in each of the four rankings. */
  method Rank<L(!new)>(hit: Classifier<L>, visits: seq<VisitRow>) returns (top: seq<Group<L>>)
    ensures IsTopTen(hit, visits, top)
  {
    var order: seq<string> := [];
    var counts: map<string, Group<L>> := map[];
    for n := 0 to |visits|
      invariant IsTally(hit, visits[..n], order, counts)
    {
      var v := visits[n];
      assert visits[..n + 1] == visits[..n] + [v];
      match hit(v) {
        case None =>
          TallyWithoutHit(hit, visits[..n], v, order, counts);
        case Some(h) =>
          ghost var order0, counts0 := order, counts;
          if h.key !in counts {
            order := order + [h.key];
          }
          counts := counts[h.key := Group(h.key, h.name, CountIn(counts, h.key) + 1)];
          TallyWithHit(hit, visits[..n], v, order0, counts0, order, counts);
      }
    }
    assert visits[..|visits|] == visits;
    var keys := Sorting.Sort(PropertyRank, order);
    EnumerationIsRight(hit, visits, order, counts);
    var values := seq(|keys|, i requires 0 <= i < |keys| && keys[i] in counts => counts[keys[i]]);
    var sorted := Sorting.Sort(ByCount, values);
    top := sorted[..if |sorted| < LIMIT then |sorted| else LIMIT];
    assert top == Cut(sorted);
    TallyRanks(hit, visits, keys, counts, values);
  }

  // ---------- Sorting ----------

  ghost predicate Ranked<L>(hit: Classifier<L>, visits: seq<VisitRow>, s: seq<Group<L>>) {
    forall i, j :: 0 <= i < j < |s| ==> Beats(hit, visits, s[i].key, s[j].key)
  }

  ghost function SeenBefore<L>(hit: Classifier<L>, visits: seq<VisitRow>): (string, string) -> bool {
    (a: string, b: string) => FirstAt(hit, visits, a) < FirstAt(hit, visits, b)
  }

  ghost function KeyPrecedes<L>(hit: Classifier<L>, visits: seq<VisitRow>): (Group<L>, Group<L>) -> bool {
    (g: Group<L>, h: Group<L>) => Precedes(hit, visits, g.key, h.key)
  }

  /** The keys of the dictionary in the order in which the object enumerates them. */
  ghost predicate IsEnumeration<L>(hit: Classifier<L>, visits: seq<VisitRow>, keys: seq<string>,
                                   counts: map<string, Group<L>>) {
    && SameKeys(keys, counts) && CountsRight(hit, visits, counts)
    && forall i, j :: 0 <= i < j < |keys| ==> Precedes(hit, visits, keys[i], keys[j])
  }

  lemma EnumerationIsRight<L>(hit: Classifier<L>, visits: seq<VisitRow>, order: seq<string>,
                              counts: map<string, Group<L>>)
    requires IsTally(hit, visits, order, counts)
    ensures IsEnumeration(hit, visits, Sorting.Sort(PropertyRank, order), counts)
  {
    var keys := Sorting.Sort(PropertyRank, order);
    Sorting.SortPermutes(PropertyRank, order);
    Sorting.SortKeepsTies(PropertyRank, SeenBefore(hit, visits), order);
    forall i, j | 0 <= i < j < |keys| ensures Precedes(hit, visits, keys[i], keys[j]) {
      assert PropertyRank(keys[i]) == PropertyRank(keys[j]) ==> SeenBefore(hit, visits)(keys[i], keys[j]);
    }
    forall k ensures k in keys <==> k in order {
      assert k in multiset(keys) <==> k in multiset(order);
    }
  }

  /** The stable sort ranks the groups, because it gets them in the order of the enumeration. */
  lemma SortRanks<L(!new)>(hit: Classifier<L>, visits: seq<VisitRow>, s: seq<Group<L>>)
    requires forall i :: 0 <= i < |s| ==> IsGroup(hit, visits, s[i])
    requires forall i, j :: 0 <= i < j < |s| ==> Precedes(hit, visits, s[i].key, s[j].key)
    ensures Ranked(hit, visits, Sorting.Sort(ByCount, s))
  {
    var sorted := Sorting.Sort(ByCount, s);
    SortKeepsGroups(hit, visits, s);
    Sorting.SortPermutes(ByCount, s);
    Sorting.SortKeepsTies(ByCount, KeyPrecedes(hit, visits), s);
    forall i, j | 0 <= i < j < |sorted| ensures Beats(hit, visits, sorted[i].key, sorted[j].key) {
      assert IsGroup(hit, visits, sorted[i]) && IsGroup(hit, visits, sorted[j]);
      assert ByCount(sorted[i]) == ByCount(sorted[j]) ==> KeyPrecedes(hit, visits)(sorted[i], sorted[j]);
    }
  }

  function Cut<L>(s: seq<Group<L>>): seq<Group<L>> {
    s[..if |s| < LIMIT then |s| else LIMIT]
  }

  lemma CutIsTopTen<L>(hit: Classifier<L>, visits: seq<VisitRow>, s: seq<Group<L>>)
    requires Ranked(hit, visits, s) && forall i :: 0 <= i < |s| ==> IsGroup(hit, visits, s[i])
    requires forall k :: CountOf(hit, visits, k) > 0 ==> Listed(s, k)
    ensures IsTopTen(hit, visits, Cut(s))
  {
    var top := Cut(s);
    forall k | CountOf(hit, visits, k) > 0 && !Listed(top, k)
      ensures |top| == LIMIT && forall i :: 0 <= i < |top| ==> Beats(hit, visits, top[i].key, k)
    {
      assert forall i :: 0 <= i < |top| ==> top[i].key != k && s[i] == top[i];
      var q :| 0 <= q < |s| && s[q].key == k;
      assert q >= |top|;
    }
  }

  lemma SortKeepsGroups<L(!new)>(hit: Classifier<L>, visits: seq<VisitRow>, s: seq<Group<L>>)
    requires forall i :: 0 <= i < |s| ==> IsGroup(hit, visits, s[i])
    ensures forall i :: 0 <= i < |Sorting.Sort(ByCount, s)| ==> IsGroup(hit, visits, Sorting.Sort(ByCount, s)[i])
    ensures forall k :: Listed(s, k) ==> Listed(Sorting.Sort(ByCount, s), k)
  {
    var sorted := Sorting.Sort(ByCount, s);
    Sorting.SortPermutes(ByCount, s);
    forall i | 0 <= i < |sorted| ensures IsGroup(hit, visits, sorted[i]) {
      assert sorted[i] in multiset(s);
      assert sorted[i] in s;
    }
    forall k | Listed(s, k) ensures Listed(sorted, k) {
      var p :| 0 <= p < |s| && s[p].key == k;
      assert s[p] in multiset(sorted);
      assert s[p] in sorted;
    }
  }

  lemma TallyRanks<L(!new)>(hit: Classifier<L>, visits: seq<VisitRow>, keys: seq<string>,
                            counts: map<string, Group<L>>, values: seq<Group<L>>)
    requires IsEnumeration(hit, visits, keys, counts) && |values| == |keys|
    requires forall i :: 0 <= i < |keys| ==> keys[i] in counts && values[i] == counts[keys[i]]
    ensures IsTopTen(hit, visits, Cut(Sorting.Sort(ByCount, values)))
  {
    forall i | 0 <= i < |values| ensures IsGroup(hit, visits, values[i]) && values[i].key == keys[i] {
    }
    SortRanks(hit, visits, values);
    SortKeepsGroups(hit, visits, values);
    forall k | CountOf(hit, visits, k) > 0 ensures Listed(values, k) {
      var p :| 0 <= p < |keys| && keys[p] == k;
      assert values[p].key == k;
    }
    CutIsTopTen(hit, visits, Sorting.Sort(ByCount, values));
  }

  // ---------- The four rankings ----------

  method GetTopEmployees(visits: seq<VisitRow>) returns (top: seq<Group<string>>)
    ensures IsTopTen(EmployeeHit, visits, top)
  {
    top := Rank(EmployeeHit, visits);
  }

  method GetTopVisitors(lower: string -> string, visits: seq<VisitRow>) returns (top: seq<Group<(string, string)>>)
    ensures IsTopTen(VisitorHit(lower), visits, top)
  {
    top := Rank(VisitorHit(lower), visits);
  }

  method GetTopDepartments(visits: seq<VisitRow>) returns (top: seq<Group<()>>)
    ensures IsTopTen(DepartmentHit, visits, top)
  {
    top := Rank(DepartmentHit, visits);
  }

  method GetTopReasons(visits: seq<VisitRow>) returns (top: seq<Group<()>>)
    ensures IsTopTen(ReasonHit, visits, top)
  {
    top := Rank(ReasonHit, visits);
  }

  // ---------- Properties of rankings ----------

  lemma NameIsUnique<L>(hit: Classifier<L>, visits: seq<VisitRow>, k: string, a: L, b: L)
    requires IsName(hit, visits, k, a) && IsName(hit, visits, k, b)
    ensures a == b
  {
    var i :| 0 <= i < |visits| && hit(visits[i]) == Some(Hit(k, a)) && forall j :: i < j < |visits| ==>
        !Has(hit, visits[j], k);
    assert Has(hit, visits[i], k);
    var j :| 0 <= j < |visits| && hit(visits[j]) == Some(Hit(k, b)) && forall l :: j < l < |visits| ==>
        !Has(hit, visits[l], k);
    assert Has(hit, visits[j], k);
  }

  /** The visits determine the ranking, names and ties included. */
  lemma TopTenIsUnique<L>(hit: Classifier<L>, visits: seq<VisitRow>, a: seq<Group<L>>, b: seq<Group<L>>)
    requires IsTopTen(hit, visits, a) && IsTopTen(hit, visits, b)
    ensures a == b
  {
    var n := if |a| < |b| then |a| else |b|;
    SameTop(hit, visits, a, b, n);
    NotShorter(hit, visits, a, b);
    NotShorter(hit, visits, b, a);
  }

  lemma {:induction false} SameTop<L>(hit: Classifier<L>, visits: seq<VisitRow>, a: seq<Group<L>>, b: seq<Group<L>>,
                                      n: nat)
    requires IsTopTen(hit, visits, a) && IsTopTen(hit, visits, b) && n <= |a| && n <= |b|
    ensures a[..n] == b[..n]
  {
    if n > 0 {
      var m := n - 1;
      SameTop(hit, visits, a, b, m);
      forall i | 0 <= i < m ensures a[i] == b[i] {
        assert a[i] == a[..m][i] == b[..m][i] == b[i];
      }
      NextBeats(hit, visits, a, b, m);
      NextBeats(hit, visits, b, a, m);
      NameIsUnique(hit, visits, a[m].key, a[m].name, b[m].name);
      assert a[..n] == a[..m] + [a[m]] && b[..n] == b[..m] + [b[m]];
    }
  }

  lemma NextBeats<L>(hit: Classifier<L>, visits: seq<VisitRow>, a: seq<Group<L>>, b: seq<Group<L>>, m: nat)
    requires IsTopTen(hit, visits, a) && IsTopTen(hit, visits, b) && m < |a| && m < |b|
    requires forall i :: 0 <= i < m ==> a[i] == b[i]
    ensures a[m].key == b[m].key || Beats(hit, visits, a[m].key, b[m].key)
  {
    var k := b[m].key;
    assert IsGroup(hit, visits, b[m]);
    if Listed(a, k) {
      var i :| 0 <= i < |a| && a[i].key == k;
      assert i < m ==> b[i].key == k && Beats(hit, visits, b[i].key, b[m].key);
    }
  }

  lemma NotShorter<L>(hit: Classifier<L>, visits: seq<VisitRow>, a: seq<Group<L>>, b: seq<Group<L>>)
    requires IsTopTen(hit, visits, a) && IsTopTen(hit, visits, b)
    requires forall n :: 0 <= n <= |a| && n <= |b| ==> a[..n] == b[..n]
    ensures |b| <= |a|
  {
    if |a| < |b| {
      var k := b[|a|].key;
      assert IsGroup(hit, visits, b[|a|]);
      forall i | 0 <= i < |a| ensures a[i].key != k {
        assert a[..|a|][i] == b[..|a|][i];
        assert Beats(hit, visits, b[i].key, k);
      }
    }
  }

  // ---------- Conservation ----------

  ghost function Keys<L>(hit: Classifier<L>, visits: seq<VisitRow>): set<string> {
    set i | 0 <= i < |visits| && hit(visits[i]).Some? :: hit(visits[i]).value.key
  }

  lemma {:induction false} KeysAreCounted<L>(hit: Classifier<L>, visits: seq<VisitRow>, k: string)
    ensures k in Keys(hit, visits) <==> CountOf(hit, visits, k) > 0
  {
    if visits != [] {
      var seen, v := visits[..|visits| - 1], visits[|visits| - 1];
      KeysAreCounted(hit, seen, k);
      assert visits == seen + [v];
      if k in Keys(hit, seen) {
        var i :| 0 <= i < |seen| && Has(hit, seen[i], k);
        assert Has(hit, visits[i], k);
      }
    }
  }

  /** The number of visits that are counted under some key. */
  ghost function Counted<L>(hit: Classifier<L>, visits: seq<VisitRow>): nat {
    if visits == [] then 0
    else Counted(hit, visits[..|visits| - 1]) + if hit(visits[|visits| - 1]).Some? then 1 else 0
  }

  /** The number of visits whose group is in the list. */
  ghost function Covered<L>(hit: Classifier<L>, visits: seq<VisitRow>, top: seq<Group<L>>): nat {
    if visits == [] then 0
    else
      var h := hit(visits[|visits| - 1]);
      Covered(hit, visits[..|visits| - 1], top) + if h.Some? && Listed(top, h.value.key) then 1 else 0
  }

  ghost function Sum<L>(s: seq<Group<L>>): nat {
    if s == [] then 0 else Sum(s[..|s| - 1]) + s[|s| - 1].count
  }

  lemma {:induction false} CoveredStep<L>(hit: Classifier<L>, visits: seq<VisitRow>, top: seq<Group<L>>, g: Group<L>)
    requires !Listed(top, g.key)
    ensures Covered(hit, visits, top + [g]) == Covered(hit, visits, top) + CountOf(hit, visits, g.key)
  {
    if visits != [] {
      CoveredStep(hit, visits[..|visits| - 1], top, g);
      ListedStep(top, g);
    }
  }

  lemma ListedStep<L>(top: seq<Group<L>>, g: Group<L>)
    ensures forall k :: Listed(top + [g], k) <==> Listed(top, k) || k == g.key
  {
    forall k ensures Listed(top + [g], k) <==> Listed(top, k) || k == g.key {
      if Listed(top, k) {
        var i :| 0 <= i < |top| && top[i].key == k;
        assert (top + [g])[i].key == k;
      }
      assert (top + [g])[|top|] == g;
    }
  }

  lemma {:induction false} SumIsCovered<L>(hit: Classifier<L>, visits: seq<VisitRow>, top: seq<Group<L>>)
    requires Ranked(hit, visits, top) && forall i :: 0 <= i < |top| ==> IsGroup(hit, visits, top[i])
    ensures Sum(top) == Covered(hit, visits, top)
  {
    if top == [] {
      NothingCovered(hit, visits);
    } else {
      var m := |top| - 1;
      SumIsCovered(hit, visits, top[..m]);
      forall i | 0 <= i < m ensures top[i].key != top[m].key {
        assert Beats(hit, visits, top[i].key, top[m].key);
      }
      CoveredStep(hit, visits, top[..m], top[m]);
      assert top == top[..m] + [top[m]];
    }
  }

  lemma {:induction false} NothingCovered<L>(hit: Classifier<L>, visits: seq<VisitRow>)
    ensures Covered(hit, visits, []) == 0
  {
    if visits != [] {
      NothingCovered(hit, visits[..|visits| - 1]);
    }
  }

  lemma {:induction false} CoveredAllIff<L>(hit: Classifier<L>, visits: seq<VisitRow>, top: seq<Group<L>>)
    ensures Covered(hit, visits, top) <= Counted(hit, visits)
    ensures Covered(hit, visits, top) == Counted(hit, visits) <==> forall k :: k in Keys(hit, visits) ==> Listed(top, k)
  {
    if visits != [] {
      var seen, v := visits[..|visits| - 1], visits[|visits| - 1];
      CoveredAllIff(hit, seen, top);
      assert visits == seen + [v];
      forall k ensures k in Keys(hit, visits) <==> k in Keys(hit, seen) || Has(hit, v, k) {
        KeysAreCounted(hit, visits, k);
        KeysAreCounted(hit, seen, k);
      }
      assert hit(v).Some? ==> Has(hit, v, hit(v).value.key);
    }
  }

  ghost function ListedKeys<L>(top: seq<Group<L>>): set<string> {
    set i | 0 <= i < |top| :: top[i].key
  }

  lemma {:induction false} DistinctKeys<L>(hit: Classifier<L>, visits: seq<VisitRow>, top: seq<Group<L>>)
    requires Ranked(hit, visits, top)
    ensures |ListedKeys(top)| == |top|
  {
    if top != [] {
      var m := |top| - 1;
      DistinctKeys(hit, visits, top[..m]);
      forall i | 0 <= i < m ensures top[i].key != top[m].key {
        assert Beats(hit, visits, top[i].key, top[m].key);
      }
      assert ListedKeys(top) == ListedKeys(top[..m]) + {top[m].key} by {
        assert top == top[..m] + [top[m]];
        forall i | 0 <= i < m ensures top[i].key in ListedKeys(top[..m]) {
          assert top[..m][i] == top[i];
        }
      }
    }
  }

  /** A ranking has ten groups, or all of them if they are fewer. */
  lemma RankingLength<L>(hit: Classifier<L>, visits: seq<VisitRow>, top: seq<Group<L>>)
    requires IsTopTen(hit, visits, top)
    ensures |top| == if |Keys(hit, visits)| < LIMIT then |Keys(hit, visits)| else LIMIT
    ensures |Keys(hit, visits)| <= LIMIT <==> Keys(hit, visits) == ListedKeys(top)
  {
    var keys, listed := Keys(hit, visits), ListedKeys(top);
    DistinctKeys(hit, visits, top);
    ListedAreKeys(hit, visits, top);
    SubsetSize(listed, keys);
    if |top| < LIMIT {
      forall k | k in keys ensures k in listed {
        KeysAreCounted(hit, visits, k);
        assert Listed(top, k);
      }
      assert listed == keys;
    }
  }

  /** The counts of a ranking add up to the number of visits in its groups, which is all the counted
      visits exactly when there are at most ten groups. */
  lemma RankingConserves<L>(hit: Classifier<L>, visits: seq<VisitRow>, top: seq<Group<L>>)
    requires IsTopTen(hit, visits, top)
    ensures Sum(top) == Covered(hit, visits, top) <= Counted(hit, visits)
    ensures Sum(top) == Counted(hit, visits) <==> |Keys(hit, visits)| <= LIMIT
  {
    SumIsCovered(hit, visits, top);
    CoveredAllIff(hit, visits, top);
    RankingLength(hit, visits, top);
    forall k ensures k in ListedKeys(top) <==> Listed(top, k) {
    }
    ListedAreKeys(hit, visits, top);
  }

  lemma ListedAreKeys<L>(hit: Classifier<L>, visits: seq<VisitRow>, top: seq<Group<L>>)
    requires IsTopTen(hit, visits, top)
    ensures ListedKeys(top) <= Keys(hit, visits)
  {
    forall k | k in ListedKeys(top) ensures k in Keys(hit, visits) {
      KeysAreCounted(hit, visits, k);
    }
  }

  /** The counts of a ranking never increase, and no group left out has more visits than one listed. */
  lemma RankingDescends<L(!new)>(hit: Classifier<L>, visits: seq<VisitRow>, top: seq<Group<L>>)
    requires IsTopTen(hit, visits, top)
    ensures Sorting.Sorted(ByCount, top)
    ensures forall k, i :: 0 <= i < |top| && !Listed(top, k) ==> CountOf(hit, visits, k) <= top[i].count
  {
    forall i, j | 0 <= i < j < |top| ensures ByCount(top[i]) <= ByCount(top[j]) {
      assert Beats(hit, visits, top[i].key, top[j].key);
    }
    forall k, i | 0 <= i < |top| && !Listed(top, k) ensures CountOf(hit, visits, k) <= top[i].count {
      assert IsGroup(hit, visits, top[i]);
      assert CountOf(hit, visits, k) > 0 ==> Beats(hit, visits, top[i].key, k);
    }
  }

  // ---------- The order of the rows ----------

  lemma {:induction false} CountSplits<L>(hit: Classifier<L>, a: seq<VisitRow>, b: seq<VisitRow>, k: string)
    ensures CountOf(hit, a + b, k) == CountOf(hit, a, k) + CountOf(hit, b, k)
  {
    if b == [] {
      assert a + b == a;
    } else {
      CountSplits(hit, a, b[..|b| - 1], k);
      assert (a + b)[..|a + b| - 1] == a + b[..|b| - 1];
    }
  }

  lemma CountWithout<L>(hit: Classifier<L>, s: seq<VisitRow>, i: nat, k: string)
    requires i < |s|
    ensures CountOf(hit, s, k) == CountOf(hit, Sorting.Without(s, i), k) + if Has(hit, s[i], k) then 1 else 0
  {
    assert s == s[..i + 1] + s[i + 1..];
    assert s[..i + 1][..i] == s[..i];
    CountSplits(hit, s[..i + 1], s[i + 1..], k);
    CountSplits(hit, s[..i], s[i + 1..], k);
  }

  lemma {:induction false} CountIgnoresOrder<L>(hit: Classifier<L>, a: seq<VisitRow>, b: seq<VisitRow>, k: string)
    requires multiset(a) == multiset(b)
    ensures CountOf(hit, a, k) == CountOf(hit, b, k)
    decreases |a|
  {
    assert |a| == |multiset(a)| == |multiset(b)| == |b|;
    if a != [] {
      assert a[0] in multiset(b);
      var i :| 0 <= i < |b| && b[i] == a[0];
      CountIgnoresOrder(hit, Sorting.Without(a, 0), Sorting.Without(b, i), k);
      CountWithout(hit, a, 0, k);
      CountWithout(hit, b, i, k);
    }
  }

  /** The first groups of `a`, having more visits than `b[m]`, are all listed in `b` before `m`. */
  lemma NoMoreThan<L>(hit: Classifier<L>, visits: seq<VisitRow>, other: seq<VisitRow>, a: seq<Group<L>>,
                      b: seq<Group<L>>, m: nat)
    requires IsTopTen(hit, visits, a) && IsTopTen(hit, other, b) && m < |a| && m < |b|
    requires forall k :: CountOf(hit, visits, k) == CountOf(hit, other, k)
    ensures a[m].count <= b[m].count
  {
    var first, before := a[..m + 1], b[..m];
    DistinctKeys(hit, visits, first);
    DistinctKeys(hit, other, before);
    var k := LargerHasExtra(ListedKeys(first), ListedKeys(before));
    var i :| 0 <= i < |first| && first[i].key == k;
    if a[m].count > b[m].count {
      AheadIsListed(hit, visits, other, a, b, m, i);
    }
  }

  lemma LargerHasExtra<T>(a: set<T>, b: set<T>) returns (x: T)
    requires |a| > |b|
    ensures x in a && x !in b
  {
    if a <= b {
      SubsetSize(a, b);
    }
    x :| x in a && x !in b;
  }

  lemma AheadIsListed<L>(hit: Classifier<L>, visits: seq<VisitRow>, other: seq<VisitRow>, a: seq<Group<L>>,
                         b: seq<Group<L>>, m: nat, i: nat)
    requires IsTopTen(hit, visits, a) && IsTopTen(hit, other, b) && i <= m < |a| && m < |b|
    requires CountOf(hit, visits, a[i].key) == CountOf(hit, other, a[i].key) && a[m].count > b[m].count
    ensures a[i].key in ListedKeys(b[..m])
  {
    forall p | m <= p < |b| ensures b[p].key != a[i].key {
      assert IsGroup(hit, other, b[p]) && (m < p ==> Beats(hit, other, b[m].key, b[p].key));
    }
    assert i < m ==> Beats(hit, visits, a[i].key, a[m].key);
    assert IsGroup(hit, visits, a[i]) && IsGroup(hit, visits, a[m]) && IsGroup(hit, other, b[m]);
    assert Listed(b, a[i].key) by {
      assert !Beats(hit, other, b[m].key, a[i].key);
    }
    var j :| 0 <= j < |b| && b[j].key == a[i].key;
    assert j < m;
    assert b[..m][j] == b[j];
  }

  /** The query returns the rows in no particular order. Ties may then be broken differently, but
      the counts of the ranking are the same. */
  lemma CountsIgnoreRowOrder<L>(hit: Classifier<L>, visits: seq<VisitRow>, other: seq<VisitRow>, a: seq<Group<L>>,
                                b: seq<Group<L>>)
    requires multiset(visits) == multiset(other) && IsTopTen(hit, visits, a) && IsTopTen(hit, other, b)
    ensures |a| == |b| && forall i :: 0 <= i < |a| ==> a[i].count == b[i].count
  {
    forall k
      ensures CountOf(hit, visits, k) == CountOf(hit, other, k) && (k in Keys(hit, visits) <==> k in Keys(hit, other))
    {
      CountIgnoresOrder(hit, visits, other, k);
      KeysAreCounted(hit, visits, k);
      KeysAreCounted(hit, other, k);
    }
    assert Keys(hit, visits) == Keys(hit, other);
    RankingLength(hit, visits, a);
    RankingLength(hit, other, b);
    forall i | 0 <= i < |a| ensures a[i].count == b[i].count {
      NoMoreThan(hit, visits, other, a, b, i);
      NoMoreThan(hit, other, visits, b, a, i);
    }
  }
}
