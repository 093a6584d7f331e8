/** Merging the licences of a message: one licence per package, the account's own rather than one
    obtained through the family group, and a running count of the latter. */
module LicenseList {
  import opened Sequences
  import opened Wrappers

  type PackageID = nat

  const STEAM: PackageID := 0

  /** A licence as sent; `packageId` may be missing.  `data` stands for all the other fields. */
  datatype LicenseData = LicenseData(packageId: Option<PackageID>, family: bool, data: int)

  predicate Relevant(l: LicenseData) {
    l.packageId.Some? && l.packageId.value != STEAM
  }

  // ---- the reference: what each package gets, without following the loop ----

  ghost function Packages(message: seq<LicenseData>): set<PackageID> {
    set l <- message | Relevant(l) :: l.packageId.value
  }

  ghost function OwnPackages(message: seq<LicenseData>): set<PackageID> {
    set l <- message | Relevant(l) && !l.family :: l.packageId.value
  }

  ghost function OwnCount(message: seq<LicenseData>): nat {
    if message == [] then 0
    else
      var last := message[|message| - 1];
      OwnCount(message[..|message| - 1]) + if Relevant(last) && !last.family then 1 else 0
  }

  /** What the code's assertion demands: at most one own licence for a package. */
  ghost predicate AtMostOneOwn(message: seq<LicenseData>) {
    forall i, j :: 0 <= i < j < |message| && Relevant(message[i]) && Relevant(message[j]) && message[i].packageId == message[j].packageId
      ==> message[i].family || message[j].family
  }

  ghost predicate IsMerge(message: seq<LicenseData>, licenses: map<PackageID, LicenseData>) {
    && licenses.Keys == Packages(message)
    && forall p <- licenses :: licenses[p] in message && licenses[p].packageId == Some(p) && (licenses[p].family <==> p !in OwnPackages(message))
  }

  predicate For(l: LicenseData, p: PackageID) {
    Relevant(l) && l.packageId == Some(p)
  }

  /** Licence `i` is the one to keep for `p`: the last own licence, or the first family licence if
      there is no own one. */
  ghost predicate KeepsAt(message: seq<LicenseData>, p: PackageID, i: nat)
    requires i < |message|
  {
    && For(message[i], p)
    && forall j | 0 <= j < |message| && For(message[j], p) ::
         if message[i].family then message[j].family && i <= j else i < j ==> message[j].family
  }

  ghost predicate KeepsRightOnes(message: seq<LicenseData>, licenses: map<PackageID, LicenseData>) {
    forall p <- licenses :: exists i :: 0 <= i < |message| && message[i] == licenses[p] && KeepsAt(message, p, i)
  }

  ghost function FamilyPackages(licenses: map<PackageID, LicenseData>): set<PackageID> {
    set p <- licenses | licenses[p].family
  }

  // ---- the code ----

  const SIZE_MAX: int := 0xffff_ffff_ffff_ffff

  /** `size_t` arithmetic wraps around. */
  function Wrap(n: int): nat {
    n % (SIZE_MAX + 1)
  }

  function Incremented(n: nat): nat {
    if n == SIZE_MAX then 0 else n + 1
  }

  function Decremented(n: nat): nat {
    if n == 0 then SIZE_MAX else n - 1
  }

  lemma WrapStep(n: int)
    ensures Incremented(Wrap(n)) == Wrap(n + 1) && Decremented(Wrap(n)) == Wrap(n - 1)
  {
  }

  /** `existing` are the packages on the whiteboard, if it has a licence list. */
  method Handle(message: seq<LicenseData>, existing: Option<set<PackageID>>)
    returns (licenses: map<PackageID, LicenseData>, newLicenses: set<PackageID>, familyLicenses: nat)
    ensures IsMerge(message, licenses) && KeepsRightOnes(message, licenses)
    ensures licenses.Keys == set l <- message | l.packageId.Some? && l.packageId.value != 0 :: l.packageId.value
    ensures newLicenses == licenses.Keys - (if existing.Some? then existing.value else {})
    ensures familyLicenses == Wrap(Exact(message))
  {
    licenses, newLicenses, familyLicenses := map[], {}, 0;
    ghost var known := if existing.Some? then existing.value else {};
    for index := 0 to |message|
      invariant Variables(licenses, newLicenses, familyLicenses) == After(message[..index], known)
    {
      var license := message[index];
      assert message[..index + 1] == message[..index] + [license];
      if Relevant(license) {
        var packageId := license.packageId.value;
        if existing.None? || packageId !in existing.value {
          newLicenses := newLicenses + {packageId};
        }
        if license.family {
          familyLicenses := Incremented(familyLicenses);
        }
        if packageId !in licenses {
          licenses := licenses[packageId := license];
        } else {
          familyLicenses := Decremented(familyLicenses);
          if !license.family {
            licenses := licenses[packageId := license];
          }
        }
      }
    }
    assert message[..|message|] == message;
    AfterMerges(message, known);
    AfterKeepsRightOnes(message, known);
    AfterIsNew(message, known);
    AfterCounts(message, known);
  }

  /** The variables of the loop, and their values after the licences `before`. */
  datatype Variables = Variables(licenses: map<PackageID, LicenseData>, newLicenses: set<PackageID>, count: nat)

  ghost function After(before: seq<LicenseData>, known: set<PackageID>): Variables {
    if before == [] then Variables(map[], {}, 0)
    else
      var v, l := After(before[..|before| - 1], known), before[|before| - 1];
      Variables(Merged(v.licenses, l), NewAfter(v.newLicenses, known, l), CountAfter(v.count, v.licenses, l))
  }

  lemma {:induction false} AfterMerges(message: seq<LicenseData>, known: set<PackageID>)
    ensures IsMerge(message, After(message, known).licenses)
  {
    if message != [] {
      var before, l := message[..|message| - 1], message[|message| - 1];
      AfterMerges(before, known);
      assert message == before + [l];
      MergeKeeps(before, l, After(before, known).licenses);
    }
  }

  lemma {:induction false} AfterKeepsRightOnes(message: seq<LicenseData>, known: set<PackageID>)
    ensures KeepsRightOnes(message, After(message, known).licenses)
  {
    if message != [] {
      var before, l := message[..|message| - 1], message[|message| - 1];
      AfterKeepsRightOnes(before, known);
      AfterMerges(before, known);
      assert message == before + [l];
      KeptStep(before, l, After(before, known).licenses);
    }
  }

  lemma {:induction false} AfterIsNew(message: seq<LicenseData>, known: set<PackageID>)
    ensures After(message, known).newLicenses == After(message, known).licenses.Keys - known
  {
    if message != [] {
      var before, l := message[..|message| - 1], message[|message| - 1];
      AfterIsNew(before, known);
      NewStep(After(before, known).licenses, l, known);
    }
  }

  lemma {:induction false} AfterCounts(message: seq<LicenseData>, known: set<PackageID>)
    ensures After(message, known).count == Wrap(Exact(message))
  {
    if message != [] {
      var before, l := message[..|message| - 1], message[|message| - 1];
      var licenses := After(before, known).licenses;
      AfterCounts(before, known);
      AfterMerges(before, known);
      assert message == before + [l];
      CountedStep(before, l, licenses);
    } else {
      assert Packages(message) == {};
    }
  }

  lemma CountedStep(before: seq<LicenseData>, l: LicenseData, licenses: map<PackageID, LicenseData>)
    requires IsMerge(before, licenses)
    ensures CountAfter(Wrap(Exact(before)), licenses, l) == Wrap(Exact(before + [l]))
  {
    CounterStep(before, l, licenses);
    CountStep(Exact(before), licenses, l);
  }

  // The three variables after one iteration

  ghost function Merged(licenses: map<PackageID, LicenseData>, l: LicenseData): map<PackageID, LicenseData> {
    if !Relevant(l) || (l.packageId.value in licenses && l.family) then licenses else licenses[l.packageId.value := l]
  }

  ghost function NewAfter(newLicenses: set<PackageID>, known: set<PackageID>, l: LicenseData): set<PackageID> {
    if Relevant(l) && l.packageId.value !in known then newLicenses + {l.packageId.value} else newLicenses
  }

  ghost function CountAfter(count: nat, licenses: map<PackageID, LicenseData>, l: LicenseData): nat {
    var raised := if Relevant(l) && l.family then Incremented(count) else count;
    if Relevant(l) && l.packageId.value in licenses then Decremented(raised) else raised
  }

  lemma KeptStep(before: seq<LicenseData>, l: LicenseData, licenses: map<PackageID, LicenseData>)
    requires IsMerge(before, licenses) && KeepsRightOnes(before, licenses)
    ensures KeepsRightOnes(before + [l], Merged(licenses, l))
  {
    var message, licenses' := before + [l], Merged(licenses, l);
    forall p <- licenses' ensures exists i :: 0 <= i < |message| && message[i] == licenses'[p] && KeepsAt(message, p, i) {
      if p in licenses && licenses'[p] == licenses[p] && !(For(l, p) && !l.family) {
        var i :| 0 <= i < |before| && before[i] == licenses[p] && KeepsAt(before, p, i);
        assert message[i] == licenses'[p] && KeepsAt(message, p, i);
      } else {
        assert p !in licenses ==> forall o <- before :: !For(o, p);
        assert message[|before|] == licenses'[p] && KeepsAt(message, p, |before|);
      }
    }
  }

  lemma NewStep(licenses: map<PackageID, LicenseData>, l: LicenseData, known: set<PackageID>)
    ensures NewAfter(licenses.Keys - known, known, l) == Merged(licenses, l).Keys - known
  {
  }

  lemma CountStep(n: int, licenses: map<PackageID, LicenseData>, l: LicenseData)
    ensures CountAfter(Wrap(n), licenses, l) ==
            Wrap(n + (if Relevant(l) && l.family then 1 else 0) - (if Relevant(l) && l.packageId.value in licenses then 1 else 0))
  {
    WrapStep(n);
    WrapStep(n + 1);
  }

  lemma PackagesStep(before: seq<LicenseData>, l: LicenseData)
    ensures Packages(before + [l]) == Packages(before) + if Relevant(l) then {l.packageId.value} else {}
    ensures OwnPackages(before + [l]) == OwnPackages(before) + if Relevant(l) && !l.family then {l.packageId.value} else {}
    ensures OwnCount(before + [l]) == OwnCount(before) + if Relevant(l) && !l.family then 1 else 0
  {
    assert (before + [l])[..|before|] == before;
  }

  lemma MergeKeeps(before: seq<LicenseData>, l: LicenseData, licenses: map<PackageID, LicenseData>)
    requires IsMerge(before, licenses)
    ensures IsMerge(before + [l], Merged(licenses, l))
  {
    PackagesStep(before, l);
    var licenses' := Merged(licenses, l);
    forall p <- licenses'
      ensures licenses'[p] in before + [l] && licenses'[p].packageId == Some(p)
           && (licenses'[p].family <==> p !in OwnPackages(before + [l]))
    {
      assert p in licenses ==> licenses[p] in before;
    }
  }

  /** The counter before it wraps around. */
  ghost function Exact(message: seq<LicenseData>): int {
    |Packages(message)| - OwnCount(message)
  }

  lemma CounterStep(before: seq<LicenseData>, l: LicenseData, licenses: map<PackageID, LicenseData>)
    requires IsMerge(before, licenses)
    ensures Exact(before + [l]) ==
            Exact(before) + (if Relevant(l) && l.family then 1 else 0) - (if Relevant(l) && l.packageId.value in licenses then 1 else 0)
  {
    PackagesStep(before, l);
    if !Relevant(l) || l.packageId.value in licenses {
      assert Packages(before + [l]) == Packages(before);
    }
  }

  // ---- what follows from the contract of Handle ----

  /** Own licences and packages that have one: as many as each other exactly when none repeats. */
  lemma {:induction false} OwnCounted(message: seq<LicenseData>)
    ensures |OwnPackages(message)| <= OwnCount(message) <= |message|
    ensures |OwnPackages(message)| == OwnCount(message) <==> AtMostOneOwn(message)
  {
    if message == [] {
      assert OwnPackages(message) == {};
    } else {
      var before, last := message[..|message| - 1], message[|message| - 1];
      OwnCounted(before);
      assert message == before + [last];
      PackagesStep(before, last);
      AtMostOneOwnStep(before, last);
    }
  }

  lemma AtMostOneOwnStep(before: seq<LicenseData>, l: LicenseData)
    ensures AtMostOneOwn(before + [l]) <==>
            AtMostOneOwn(before) && !(Relevant(l) && !l.family && l.packageId.value in OwnPackages(before))
  {
    var message := before + [l];
    assert message[|before|] == l && forall i :: 0 <= i < |before| ==> message[i] == before[i];
    if AtMostOneOwn(message) {
      forall i, j | 0 <= i < j < |before| && Relevant(before[i]) && Relevant(before[j]) && before[i].packageId == before[j].packageId
        ensures before[i].family || before[j].family
      {
        assert message[i] == before[i] && message[j] == before[j];
      }
      forall o <- before | Relevant(o) && !o.family && o.packageId == l.packageId && Relevant(l) ensures l.family {
        var i :| 0 <= i < |before| && before[i] == o;
      }
    } else {
      var i, j :| 0 <= i < j < |message| && Relevant(message[i]) && Relevant(message[j])
               && message[i].packageId == message[j].packageId && !message[i].family && !message[j].family;
      assert message[i] == before[i] && before[i] in before;
    }
  }

  /** The family licences of the list are the packages without an own licence. */
  lemma FamilyCount(message: seq<LicenseData>, licenses: map<PackageID, LicenseData>)
    requires IsMerge(message, licenses)
    ensures |FamilyPackages(licenses)| == |Packages(message)| - |OwnPackages(message)|
  {
    var family, own := FamilyPackages(licenses), OwnPackages(message);
    assert own <= Packages(message);
    assert family == Packages(message) - own;
  }

  /** The counter is the number of family licences in the list exactly when no package came with
      two own licences; each repetition makes it one too low, down to wrapping around. */
  lemma CounterRightIff(message: seq<LicenseData>, licenses: map<PackageID, LicenseData>)
    requires |message| <= 0x7fff_ffff && IsMerge(message, licenses)
    ensures Wrap(Exact(message)) == |FamilyPackages(licenses)| <==> AtMostOneOwn(message)
  {
    OwnCounted(message);
    FamilyCount(message, licenses);
    FewPackages(message);
    WrapSmall(Exact(message));
  }

  /** Without two own licences of a package, the counter never goes below zero on the way. */
  lemma NeverUnderflows(message: seq<LicenseData>, n: nat)
    requires AtMostOneOwn(message) && n <= |message|
    ensures 0 <= Exact(message[..n])
  {
    OwnCounted(message[..n]);
    assert OwnPackages(message[..n]) <= Packages(message[..n]);
    SubsetSize(OwnPackages(message[..n]), Packages(message[..n]));
  }

  lemma WrapSmall(n: int)
    requires -0x8000_0000 < n < 0x8000_0000
    ensures Wrap(n) == if n < 0 then n + SIZE_MAX + 1 else n
  {
  }

  lemma {:induction false} FewPackages(message: seq<LicenseData>)
    ensures |Packages(message)| <= |message|
  {
    if message != [] {
      var before, last := message[..|message| - 1], message[|message| - 1];
      FewPackages(before);
      assert message == before + [last];
      assert Packages(message) == if Relevant(last) then Packages(before) + {last.packageId.value} else Packages(before);
    } else {
      assert Packages(message) == {};
    }
  }

  /** Which packages there are, and which of them are family licences, does not depend on the order
      of the message; nor do the own licences themselves, if no package has two. */
  lemma OrderDoesNotMatter(message: seq<LicenseData>, other: seq<LicenseData>,
                           licenses: map<PackageID, LicenseData>, licenses': map<PackageID, LicenseData>)
    requires multiset(message) == multiset(other)
    requires IsMerge(message, licenses) && IsMerge(other, licenses')
    ensures licenses.Keys == licenses'.Keys && FamilyPackages(licenses) == FamilyPackages(licenses')
    ensures AtMostOneOwn(message) ==> forall p <- licenses :: !licenses[p].family ==> licenses[p] == licenses'[p]
  {
    SameElements(message, other);
    SamePackages(message, other);
    if AtMostOneOwn(message) {
      forall p <- licenses | !licenses[p].family ensures licenses[p] == licenses'[p] {
        OwnUnique(message, licenses[p], licenses'[p]);
      }
    }
  }

  lemma SamePackages(message: seq<LicenseData>, other: seq<LicenseData>)
    requires forall l :: l in message <==> l in other
    ensures Packages(message) == Packages(other) && OwnPackages(message) == OwnPackages(other)
  {
  }

  /** Two own licences of one package: the counter has wrapped around, although there is no family
      licence at all. */
  lemma CounterWrapsAround(p: PackageID, first: int, second: int)
    requires p != STEAM
    ensures var message := [LicenseData(Some(p), false, first), LicenseData(Some(p), false, second)];
            && Wrap(Exact(message)) == SIZE_MAX
            && forall licenses :: IsMerge(message, licenses) ==> FamilyPackages(licenses) == {}
  {
    var one, two := LicenseData(Some(p), false, first), LicenseData(Some(p), false, second);
    PackagesStep([], one);
    PackagesStep([one], two);
    assert [] + [one] == [one] && [one] + [two] == [one, two];
    assert Packages([one, two]) == {p} && OwnPackages([one, two]) == {p};
  }

  lemma OwnUnique(message: seq<LicenseData>, l: LicenseData, l': LicenseData)
    requires AtMostOneOwn(message) && l in message && l' in message
    requires Relevant(l) && l.packageId == l'.packageId && !l.family && !l'.family
    ensures l == l'
  {
    var i :| 0 <= i < |message| && message[i] == l;
    var j :| 0 <= j < |message| && message[j] == l';
  }
}
