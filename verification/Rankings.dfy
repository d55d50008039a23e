/** The four rankings in terms of the columns of the visits: src/visit/visit.analytics.service.ts. */
module Rankings {
  import opened Basics
  import opened TopTen

  /** The visits that count under `k`. */
  ghost function Those(counted: (VisitRow, string) -> bool, visits: seq<VisitRow>, k: string): set<int> {
    set p | 0 <= p < |visits| && counted(visits[p], k)
  }

  /** Distinct keys with their numbers of visits, in descending order: the ten most frequent, or all if there
      are no more. */
  ghost predicate TenMostFrequent<L>(counted: (VisitRow, string) -> bool, visits: seq<VisitRow>, top: seq<Group<L>>) {
    && |top| <= 10
    && (forall i :: 0 <= i < |top| ==> top[i].count == |Those(counted, visits, top[i].key)| > 0)
    && (forall i, j :: 0 <= i < j < |top| ==> top[i].key != top[j].key && top[i].count >= top[j].count)
    && (forall k :: Those(counted, visits, k) != {} && !Listed(top, k) ==>
          |top| == 10 && forall i :: 0 <= i < |top| ==> top[i].count >= |Those(counted, visits, k)|)
  }

  /** The last visit that counts under `k`. */
  ghost predicate IsLast(counted: (VisitRow, string) -> bool, visits: seq<VisitRow>, k: string, p: int) {
    p in Those(counted, visits, k) && forall q :: q in Those(counted, visits, k) ==> q <= p
  }

  lemma {:induction false} CountIsSize<L>(hit: Classifier<L>, counted: (VisitRow, string) -> bool,
                                          visits: seq<VisitRow>, k: string)
    requires forall v :: Has(hit, v, k) <==> counted(v, k)
    ensures CountOf(hit, visits, k) == |Those(counted, visits, k)|
  {
    if visits == [] {
      assert Those(counted, visits, k) == {};
    } else {
      var last := |visits| - 1;
      var before := Those(counted, visits[..last], k);
      CountIsSize(hit, counted, visits[..last], k);
      assert Has(hit, visits[last], k) <==> counted(visits[last], k);
      if counted(visits[last], k) {
        assert Those(counted, visits, k) == before + {last};
      } else {
        assert Those(counted, visits, k) == before;
      }
    }
  }

  lemma TopTenMeans<L>(hit: Classifier<L>, counted: (VisitRow, string) -> bool, visits: seq<VisitRow>,
                       top: seq<Group<L>>)
    requires IsTopTen(hit, visits, top) && forall v, k :: Has(hit, v, k) <==> counted(v, k)
    ensures TenMostFrequent(counted, visits, top)
  {
    forall k ensures CountOf(hit, visits, k) == |Those(counted, visits, k)| {
      CountIsSize(hit, counted, visits, k);
    }
    forall i, j | 0 <= i < j < |top| ensures top[i].key != top[j].key && top[i].count >= top[j].count {
      assert Beats(hit, visits, top[i].key, top[j].key);
      assert IsGroup(hit, visits, top[i]) && IsGroup(hit, visits, top[j]);
    }
    forall k, i | Those(counted, visits, k) != {} && !Listed(top, k) && 0 <= i < |top|
      ensures top[i].count >= |Those(counted, visits, k)|
    {
      assert IsGroup(hit, visits, top[i]) && Beats(hit, visits, top[i].key, k);
    }
  }

  lemma NameIsLast<L>(hit: Classifier<L>, counted: (VisitRow, string) -> bool, visits: seq<VisitRow>, k: string,
                      name: L)
    returns (p: int)
    requires IsName(hit, visits, k, name) && forall v :: Has(hit, v, k) <==> counted(v, k)
    ensures IsLast(counted, visits, k, p) && hit(visits[p]) == Some(Hit(k, name))
  {
    p :| 0 <= p < |visits| && hit(visits[p]) == Some(Hit(k, name)) && forall j :: p < j < |visits| ==>
        !Has(hit, visits[j], k);
    assert Has(hit, visits[p], k);
  }

  // ---------- The four rankings ----------

  predicate HasHost(v: VisitRow, id: string) {
    v.staff.Some? && v.staff.value.id == id
  }

  /** Employees by their visits; one without a name is shown as Unknown. */
  lemma EmployeeRanking(visits: seq<VisitRow>, top: seq<Group<string>>)
    requires IsTopTen(EmployeeHit, visits, top)
    ensures TenMostFrequent(HasHost, visits, top)
    ensures forall i :: 0 <= i < |top| ==> exists p ::
              && IsLast(HasHost, visits, top[i].key, p)
              && top[i].name == if visits[p].staff.value.name == "" then "Unknown" else visits[p].staff.value.name
  {
    TopTenMeans(EmployeeHit, HasHost, visits, top);
    forall i | 0 <= i < |top|
      ensures exists p ::
              && IsLast(HasHost, visits, top[i].key, p)
              && top[i].name == if visits[p].staff.value.name == "" then "Unknown" else visits[p].staff.value.name
    {
      var p := NameIsLast(EmployeeHit, HasHost, visits, top[i].key, top[i].name);
    }
  }

  function HasAddress(lower: string -> string): (VisitRow, string) -> bool {
    (v: VisitRow, k: string) => lower(v.email) == k
  }

  /** The group has the name and the address of its last visit. */
  ghost predicate ShowsLast(lower: string -> string, visits: seq<VisitRow>, g: Group<(string, string)>) {
    exists p :: IsLast(HasAddress(lower), visits, g.key, p) && g.name == (visits[p].fullName, visits[p].email)
  }

  /** Visitors by lower-cased address, shown with the name and the address of their last visit. */
  lemma VisitorRanking(lower: string -> string, visits: seq<VisitRow>, top: seq<Group<(string, string)>>)
    requires IsTopTen(VisitorHit(lower), visits, top)
    ensures TenMostFrequent(HasAddress(lower), visits, top)
    ensures forall g :: g in top ==> ShowsLast(lower, visits, g)
  {
    TopTenMeans(VisitorHit(lower), HasAddress(lower), visits, top);
    forall g | g in top ensures ShowsLast(lower, visits, g) {
      assert IsGroup(VisitorHit(lower), visits, g);
      var p := NameIsLast(VisitorHit(lower), HasAddress(lower), visits, g.key, g.name);
      assert VisitorHit(lower)(visits[p]).value.name == (visits[p].fullName, visits[p].email);
    }
  }

  predicate IsText(o: Option<string>) {
    o != None && o != Some("")
  }

  /** The visit's host has department `k`; a visit without one counts as No Department. */
  predicate OfDepartment(v: VisitRow, k: string) {
    if v.staff.Some? && IsText(v.staff.value.department) then v.staff.value.department == Some(k)
    else k == "No Department"
  }

  lemma DepartmentRanking(visits: seq<VisitRow>, top: seq<Group<()>>)
    requires IsTopTen(DepartmentHit, visits, top)
    ensures TenMostFrequent(OfDepartment, visits, top)
  {
    TopTenMeans(DepartmentHit, OfDepartment, visits, top);
  }

  predicate ForReason(v: VisitRow, k: string) {
    if IsText(v.reason) then v.reason == Some(k) else k == "No Reason"
  }

  lemma ReasonRanking(visits: seq<VisitRow>, top: seq<Group<()>>)
    requires IsTopTen(ReasonHit, visits, top)
    ensures TenMostFrequent(ForReason, visits, top)
  {
    TopTenMeans(ReasonHit, ForReason, visits, top);
  }

  // ---------- Ties ----------

  function DigitOf(d: nat): (c: char)
    requires d < 10
    ensures '0' <= c <= '9' && c as int - '0' as int == d
    ensures c == '0' <==> d == 0
  {
    ('0' as int + d) as char
  }

  /** The decimal digits of a number. */
  function Decimal(n: nat): string {
    (if n < 10 then [] else Decimal(n / 10)) + [DigitOf(n % 10)]
  }

  lemma OneMoreDigit(front: string, c: char)
    requires AllDigits(front) && '0' <= c <= '9'
    ensures AllDigits(front + [c]) && Value(front + [c]) == 10 * Value(front) + (c as int - '0' as int)
  {
    assert (front + [c])[..|front|] == front;
  }

  lemma {:induction false} DecimalIsRead(n: nat)
    ensures AllDigits(Decimal(n)) && Value(Decimal(n)) == n
    ensures Decimal(n) != [] && (Decimal(n)[0] == '0' ==> n == 0) && (n == 0 ==> |Decimal(n)| == 1)
  {
    if n < 10 {
      OneMoreDigit([], DigitOf(n));
      assert Decimal(n) == [] + [DigitOf(n)];
    } else {
      DecimalIsRead(n / 10);
      OneMoreDigit(Decimal(n / 10), DigitOf(n % 10));
      assert Decimal(n) == Decimal(n / 10) + [DigitOf(n % 10)];
    }
  }

  lemma SameDigit(c: char, d: nat)
    requires '0' <= c <= '9' && d == c as int - '0' as int
    ensures d < 10 && DigitOf(d) == c
  {
  }

  lemma {:induction false} ReadIsDecimal(s: string)
    requires s != [] && AllDigits(s) && (s[0] == '0' ==> |s| == 1)
    ensures Decimal(Value(s)) == s
    ensures s[0] != '0' ==> Value(s) > 0
  {
    var front, c := s[..|s| - 1], s[|s| - 1];
    assert s == front + [c];
    OneMoreDigit(front, c);
    SameDigit(c, c as int - '0' as int);
    if front == [] {
      assert Value(front) == 0;
    } else {
      ReadIsDecimal(front);
      DecimalOfMore(Value(front), c);
    }
  }

  lemma DecimalOfMore(m: nat, c: char)
    requires m > 0 && '0' <= c <= '9'
    ensures Decimal(10 * m + (c as int - '0' as int)) == Decimal(m) + [c]
  {
    var d := c as int - '0' as int;
    SameDigit(c, d);
    assert (10 * m + d) / 10 == m && (10 * m + d) % 10 == d;
  }

  /** Groups of equal counts follow the dictionary: the keys that are the decimal digits of a number below
      2^32 - 1 come before all others, by that number. */
  lemma NumbersComeFirst(a: string)
    ensures (exists n: nat :: n < 4294967295 && a == Decimal(n)) ==>
        PropertyRank(a) < 4294967295 && a == Decimal(PropertyRank(a))
    ensures (forall n: nat :: n < 4294967295 ==> a != Decimal(n)) ==> PropertyRank(a) == 4294967295
  {
    if n: nat :| n < 4294967295 && a == Decimal(n) {
      DecimalIsRead(n);
    } else if IsArrayIndex(a) {
      ReadIsDecimal(a);
    }
  }
}
