/**
 The catalogue of service centres (api/config_init.py): which visible numbers one
 departments answer offers, and what a scan makes of those numbers.
 */
module Catalogue {
  import opened Common
  import opened Dicts
  import opened Sorting
  import opened Slots
  import opened CentreNames
  import opened Http
  import opened Scan

  // ---------------------------------------------------------------------------
  // Discovery
  // ---------------------------------------------------------------------------

  datatype DiscoveredCentre = DiscoveredCentre(centreId: string, name: string, departmentId: int)

  datatype Discovery = Discovery(
    centres: seq<DiscoveredCentre>,
    unresolved: seq<Department>,       // names that mark no number, or several
    duplicates: seq<string>)           // numbers marked in more than one name

  function CentreOf(number: string, d: Department): DiscoveredCentre { DiscoveredCentre(number, d.name, d.id) }

  predicate NoNumber(d: Department) { CentreNumber(d.name).None? }

  /** The first department to claim each number. */
  function Claims(departments: seq<Department>): Dict<string, DiscoveredCentre> {
    if departments == [] then []
    else
      var before, last := Claims(departments[..|departments| - 1]), departments[|departments| - 1];
      match CentreNumber(last.name)
      case None => before
      case Some(n) => if Find(before, n).Some? then before else Put(before, n, CentreOf(n, last))
  }

  /** Every number claimed again, as often as it is. */
  function ClaimedAgain(departments: seq<Department>): seq<string> {
    if departments == [] then []
    else
      var n := |departments| - 1;
      var number := CentreNumber(departments[n].name);
      ClaimedAgain(departments[..n])
      + if number.Some? && Find(Claims(departments[..n]), number.value).Some? then [number.value] else []
  }

  predicate CentreFirst(a: DiscoveredCentre, b: DiscoveredCentre) { CentreLeq(a.centreId, b.centreId) }

  function DiscoveryOf(departments: seq<Department>): Discovery {
    Discovery(
      Sort(Values(Claims(departments)), CentreFirst),
      Filter(departments, NoNumber),
      Sort(Distinct(ClaimedAgain(departments)), CentreLeq))
  }

  method Discover(departments: seq<Department>) returns (discovery: Discovery)
    ensures discovery == DiscoveryOf(departments)
  {
    var centres: Dict<string, DiscoveredCentre> := [];
    var unresolved: seq<Department> := [];
    var duplicates: seq<string> := [];
    for i := 0 to |departments|
      invariant centres == Claims(departments[..i])
      invariant unresolved == Filter(departments[..i], NoNumber)
      invariant duplicates == ClaimedAgain(departments[..i])
    {
      ghost var next := departments[..i + 1];
      assert next[..i] == departments[..i] && next == departments[..i] + [departments[i]];
      OneMoreFiltered(departments[..i], departments[i], NoNumber);
      var number := CentreNumber(departments[i].name);
      if number.None? {
        unresolved := unresolved + [departments[i]];
      } else if Find(centres, number.value).Some? {
        duplicates := duplicates + [number.value];
      } else {
        centres := Put(centres, number.value, CentreOf(number.value, departments[i]));
      }
    }
    assert departments[..|departments|] == departments;
    return Discovery(Sort(Values(centres), CentreFirst), unresolved, Sort(Distinct(duplicates), CentreLeq));
  }

  lemma OneMoreFiltered<T>(xs: seq<T>, x: T, keep: T -> bool)
    ensures Filter(xs + [x], keep) == if keep(x) then Filter(xs, keep) + [x] else Filter(xs, keep)
  {
    FilterAppend(xs, [x], keep);
    assert [x][1..] == [];
  }

  predicate Carries(d: Department, number: string) { CentreNumber(d.name) == Some(number) }

  /** The earliest department to mark the number in its name. */
  function FirstClaim(departments: seq<Department>, number: string): Option<DiscoveredCentre> {
    if departments == [] then None
    else if Carries(departments[0], number) then Some(CentreOf(number, departments[0]))
    else FirstClaim(departments[1..], number)
  }

  lemma {:induction false} FirstClaimSnoc(departments: seq<Department>, last: Department, number: string)
    ensures FirstClaim(departments + [last], number) ==
            if FirstClaim(departments, number).Some? then FirstClaim(departments, number)
            else if Carries(last, number) then Some(CentreOf(number, last)) else None
  {
    if departments == [] {
      assert ([last])[1..] == [];
    } else {
      assert (departments + [last])[1..] == departments[1..] + [last];
      FirstClaimSnoc(departments[1..], last, number);
    }
  }

  /** A number belongs to the first department that claims it. */
  lemma {:induction false} ClaimIsFirst(departments: seq<Department>, number: string)
    ensures Find(Claims(departments), number) == FirstClaim(departments, number)
  {
    if departments != [] {
      var n := |departments| - 1;
      var last := departments[n];
      assert departments == departments[..n] + [last];
      ClaimIsFirst(departments[..n], number);
      FirstClaimSnoc(departments[..n], last, number);
      if CentreNumber(last.name).Some? {
        PutFinds(Claims(departments[..n]), CentreNumber(last.name).value, CentreOf(CentreNumber(last.name).value, last), number);
        ClaimIsFirst(departments[..n], CentreNumber(last.name).value);
      }
    }
  }

  lemma {:induction false} ClaimsAreFiled(departments: seq<Department>)
    ensures Unique(Claims(departments)) && forall p <- Claims(departments) :: p.1.centreId == p.0
  {
    if departments != [] {
      var n := |departments| - 1;
      ClaimsAreFiled(departments[..n]);
      var number := CentreNumber(departments[n].name);
      if number.Some? {
        PutUnique(Claims(departments[..n]), number.value, CentreOf(number.value, departments[n]));
        PutMembers(Claims(departments[..n]), number.value, CentreOf(number.value, departments[n]));
      }
    }
  }

  lemma {:induction false} FirstClaimIsMember(departments: seq<Department>, number: string) returns (i: nat)
    requires FirstClaim(departments, number).Some?
    ensures i < |departments| && Carries(departments[i], number)
    ensures FirstClaim(departments, number).value == CentreOf(number, departments[i])
    ensures forall j :: 0 <= j < i ==> !Carries(departments[j], number)
  {
    if Carries(departments[0], number) {
      i := 0;
    } else {
      var k := FirstClaimIsMember(departments[1..], number);
      i := k + 1;
      assert forall j :: 1 <= j < i ==> departments[j] == departments[1..][j - 1];
    }
  }

  lemma {:induction false} NoClaimNoCarrier(departments: seq<Department>, number: string)
    requires FirstClaim(departments, number).None?
    ensures forall d <- departments :: !Carries(d, number)
  {
    if departments != [] {
      NoClaimNoCarrier(departments[1..], number);
      assert departments == [departments[0]] + departments[1..];
    }
  }

  predicate DistinctIds(centres: seq<DiscoveredCentre>) {
    forall i, j :: 0 <= i < j < |centres| ==> centres[i].centreId != centres[j].centreId
  }

  /** Discovered centres are exactly the first claims: each number once, in order. */
  lemma DiscoveredAreFirstClaims(departments: seq<Department>, c: DiscoveredCentre)
    ensures c in DiscoveryOf(departments).centres <==> FirstClaim(departments, c.centreId) == Some(c)
  {
    var claims := Claims(departments);
    SortMembers(Values(claims), CentreFirst);
    ClaimIsFirst(departments, c.centreId);
    ClaimsAreFiled(departments);
    FindIsMember(claims, c.centreId);
    if c in Values(claims) {
      var i :| 0 <= i < |claims| && Values(claims)[i] == c;
      assert claims[i] in claims && claims[i] == (c.centreId, c);
    }
    if FirstClaim(departments, c.centreId) == Some(c) {
      var i :| 0 <= i < |claims| && claims[i] == (c.centreId, c);
      assert Values(claims)[i] == c;
    }
  }

  lemma {:induction false} ValuesHaveDistinctIds(claims: Dict<string, DiscoveredCentre>)
    requires Unique(claims) && forall p <- claims :: p.1.centreId == p.0
    ensures NoRepeats(Values(claims)) && DistinctIds(Values(claims))
  {
  }

  lemma CentreFirstIsTotal()
    ensures TotalPreorder(CentreFirst)
  {
    CentreOrderIsTotal();
  }

  /** One number, one centre, and always in the same order. */
  lemma DiscoveryIsInOrder(departments: seq<Department>)
    ensures DistinctIds(DiscoveryOf(departments).centres) && Sorted(DiscoveryOf(departments).centres, CentreFirst)
    ensures forall c <- DiscoveryOf(departments).centres :: AllDigits(c.centreId)
  {
    var values := Values(Claims(departments));
    ClaimsAreFiled(departments);
    ValuesHaveDistinctIds(Claims(departments));
    CentreFirstIsTotal();
    SortSorts(values, CentreFirst);
    SortMembers(values, CentreFirst);
    SameMembersNoRepeats(values, Sort(values, CentreFirst));
    SameIdSameCentre(values, Sort(values, CentreFirst));
    forall c | c in DiscoveryOf(departments).centres ensures AllDigits(c.centreId) {
      DiscoveredAreFirstClaims(departments, c);
      var i := FirstClaimIsMember(departments, c.centreId);
      CentreNumberIsDigits(departments[i].name);
    }
  }

  lemma SameIdSameCentre(a: seq<DiscoveredCentre>, b: seq<DiscoveredCentre>)
    requires DistinctIds(a) && NoRepeats(b) && forall c :: c in b <==> c in a
    ensures DistinctIds(b)
  {
    forall i, j | 0 <= i < j < |b| ensures b[i].centreId != b[j].centreId {
      assert b[i] in a && b[j] in a && b[i] != b[j];
    }
  }

  /** How many departments carry the number. */
  function Carriers(departments: seq<Department>, number: string): nat {
    if departments == [] then 0
    else Carriers(departments[..|departments| - 1], number)
         + if Carries(departments[|departments| - 1], number) then 1 else 0
  }

  lemma {:induction false} ClaimedIsCarried(departments: seq<Department>, number: string)
    ensures Find(Claims(departments), number).Some? <==> Carriers(departments, number) >= 1
    ensures number in ClaimedAgain(departments) <==> Carriers(departments, number) >= 2
  {
    if departments != [] {
      var n := |departments| - 1;
      ClaimedIsCarried(departments[..n], number);
      var last := CentreNumber(departments[n].name);
      if last.Some? {
        PutFinds(Claims(departments[..n]), last.value, CentreOf(last.value, departments[n]), number);
      }
    }
  }

  /** Duplicates are the numbers two departments carry. */
  lemma DuplicatesAre(departments: seq<Department>, number: string)
    ensures number in DiscoveryOf(departments).duplicates <==> Carriers(departments, number) >= 2
  {
    ClaimedIsCarried(departments, number);
    DistinctIsDistinct(ClaimedAgain(departments));
    SortMembers(Distinct(ClaimedAgain(departments)), CentreLeq);
  }

  // ---------------------------------------------------------------------------
  // Discovered means resolvable, or refused
  // ---------------------------------------------------------------------------

  lemma {:induction false} CarriersMatch(departments: seq<Department>, number: string)
    ensures |Filter(departments, (d: Department) => Identifies(d.name, number))| >= Carriers(departments, number)
  {
    if departments != [] {
      var n := |departments| - 1;
      var keep := (d: Department) => Identifies(d.name, number);
      CarriersMatch(departments[..n], number);
      assert departments == departments[..n] + [departments[n]];
      OneMoreFiltered(departments[..n], departments[n], keep);
      if Carries(departments[n], number) {
        CentreNumberIdentifies(departments[n].name);
      }
    }
  }

  /** A department that matches is the one that is found, or none is. */
  lemma FoundIsTheMatch(departments: seq<Department>, number: string, d: Department)
    requires d in departments && Identifies(d.name, number)
    ensures Resolve(departments, number).Some? ==> Resolve(departments, number).value == d
  {
    FilterMembers(departments, (d: Department) => Identifies(d.name, number));
  }

  /**
   A scan that looks a discovered number up in the same answer finds the department it
   was read off, or refuses to choose; it never finds another one.
   */
  lemma DiscoveredResolvesToItself(departments: seq<Department>, c: DiscoveredCentre)
    requires c in DiscoveryOf(departments).centres
    ensures var found := Resolve(departments, c.centreId);
            found.Some? ==> CentreOf(c.centreId, found.value) == c
  {
    DiscoveredAreFirstClaims(departments, c);
    var i := FirstClaimIsMember(departments, c.centreId);
    CentreNumberIdentifies(departments[i].name);
    FoundIsTheMatch(departments, c.centreId, departments[i]);
  }

  /** A number reported as a duplicate is one that every scan refuses. */
  lemma DuplicatesAreRefused(departments: seq<Department>, number: string)
    requires number in DiscoveryOf(departments).duplicates
    ensures Resolve(departments, number).None?
  {
    DuplicatesAre(departments, number);
    CarriersMatch(departments, number);
  }
}
