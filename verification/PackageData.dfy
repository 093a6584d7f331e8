/** The package database: packages by id, the reverse index from applications to packages, and the file. */
module PackageData {
  import opened Sequences
  import opened Wrappers
  import opened Vectors

  type AppID = int
  type PackageID = nat

  // ---- JSON, as far as the file needs it ----

  /** An object keeps its items in insertion order.  A leaf is known by the number it converts to, if it does. */
  datatype Json = Leaf(number: Option<int>) | Object(items: seq<(string, Json)>)

  function IfContains(items: seq<(string, Json)>, key: string): Option<Json> {
    if items == [] then None
    else if items[|items| - 1].0 == key then Some(items[|items| - 1].1)
    else IfContains(items[..|items| - 1], key)
  }

  /** `object[key] = value`: replaces the value of an existing key, or appends an item. */
  function Assign(items: seq<(string, Json)>, key: string, value: Json): seq<(string, Json)> {
    if IfContains(items, key).None? then items + [(key, value)]
    else seq(|items|, i requires 0 <= i < |items| => if items[i].0 == key then (key, value) else items[i])
  }

  function NumberAt(items: seq<(string, Json)>, key: string): Option<int> {
    match IfContains(items, key)
    case Some(Leaf(n)) => n
    case _ => None
  }

  // ---- packages ----

  datatype PackageInfo = PackageInfo(packageId: PackageID, changeNumber: nat, data: seq<(string, Json)>, appIds: seq<AppID>)

  function Numbers(items: seq<(string, Json)>): Option<seq<AppID>> {
    if items == [] then Some([])
    else
      var front, last := Numbers(items[..|items| - 1]), items[|items| - 1].1;
      if front.Some? && last.Leaf? && last.number.Some? then Some(front.value + [last.number.value]) else None
  }

  /** `setData`: the numbers in the "appids" object; none when there is no such object; an exception for a non-number. */
  function AppIdsOf(data: seq<(string, Json)>): Option<seq<AppID>> {
    match IfContains(data, "appids")
    case Some(Object(items)) => Numbers(items)
    case _ => Some([])
  }

  /** The ids are the numbers in the object, in order; one value that is not a number makes it unreadable. */
  lemma {:induction false} NumbersIff(items: seq<(string, Json)>)
    ensures Numbers(items).Some? <==> forall i | 0 <= i < |items| :: items[i].1.Leaf? && items[i].1.number.Some?
    ensures Numbers(items).Some? ==>
              |Numbers(items).value| == |items| && forall i | 0 <= i < |items| :: Some(Numbers(items).value[i]) == items[i].1.number
  {
    if items != [] {
      var front := items[..|items| - 1];
      NumbersIff(front);
      assert forall i | 0 <= i < |front| :: front[i] == items[i];
    }
  }

  lemma AppIdsMissing(data: seq<(string, Json)>)
    requires IfContains(data, "appids").None? || IfContains(data, "appids").value.Leaf?
    ensures AppIdsOf(data) == Some([])
  {
  }

  function ToJson(info: PackageInfo): Json {
    Object([("packageId", Leaf(Some(info.packageId))), ("changeNumber", Leaf(Some(info.changeNumber))), ("data", Object(info.data))])
  }

  function FromJson(json: Json): Option<PackageInfo> {
    if !json.Object? then None
    else
      var id, change, data := NumberAt(json.items, "packageId"), NumberAt(json.items, "changeNumber"), IfContains(json.items, "data");
      if id.Some? && change.Some? && id.value >= 0 && change.value >= 0 && data.Some? && data.value.Object? then
        var appIds := AppIdsOf(data.value.items);
        if appIds.Some? then Some(PackageInfo(id.value, change.value, data.value.items, appIds.value)) else None
      else None
  }

  /** The application ids are those in the data, each once. */
  ghost predicate WellFormed(info: PackageInfo) {
    AppIdsOf(info.data) == Some(info.appIds) && Distinct(info.appIds)
  }

  lemma JsonRoundTrip(info: PackageInfo)
    requires AppIdsOf(info.data) == Some(info.appIds)
    ensures FromJson(ToJson(info)) == Some(info)
  {
    var items := ToJson(info).items;
    assert items[..2] == [("packageId", Leaf(Some(info.packageId))), ("changeNumber", Leaf(Some(info.changeNumber)))];
    assert items[..2][..1] == [("packageId", Leaf(Some(info.packageId)))];
    assert IfContains(items, "changeNumber") == IfContains(items[..2], "changeNumber");
    assert IfContains(items, "packageId") == IfContains(items[..2], "packageId") == IfContains(items[..2][..1], "packageId");
  }

  /** The fields of the file format. */
  lemma JsonHasFields(info: PackageInfo)
    ensures var items := ToJson(info).items;
            && NumberAt(items, "packageId") == Some(info.packageId)
            && NumberAt(items, "changeNumber") == Some(info.changeNumber)
            && IfContains(items, "data") == Some(Object(info.data))
  {
    var items := ToJson(info).items;
    assert items[..2] == [("packageId", Leaf(Some(info.packageId))), ("changeNumber", Leaf(Some(info.changeNumber)))];
    assert items[..2][..1] == [("packageId", Leaf(Some(info.packageId)))];
    assert IfContains(items, "changeNumber") == IfContains(items[..2], "changeNumber");
    assert IfContains(items, "packageId") == IfContains(items[..2], "packageId") == IfContains(items[..2][..1], "packageId");
  }

  // ---- packages and links, without the data structures ----

  type Packages = map<PackageID, PackageInfo>

  /** The packages, and the links from applications to packages that the index holds. */
  datatype Link = Linked(appId: AppID, package: PackageID)

  datatype Store = Store(data: Packages, links: set<Link>)

  ghost function IdsIn(data: Packages, p: PackageID): seq<AppID> {
    if p in data then data[p].appIds else []
  }

  /** What a scan of the packages finds: the links there should be. */
  ghost function Scan(data: Packages): set<Link> {
    set p, a | p in data && a in data[p].appIds :: Linked(a, p)
  }

  ghost function LinkedTo(links: set<Link>, p: PackageID): set<AppID> {
    set l <- links | l.package == p :: l.appId
  }

  ghost function Unlinked(s: Store, p: PackageID): set<Link> {
    set l <- s.links | !(l.package == p && l.appId in IdsIn(s.data, p))
  }

  /** Links to a package that its current entry does not account for: they are never removed. */
  ghost function Stale(s: Store, p: PackageID): set<AppID> {
    LinkedTo(Unlinked(s, p), p)
  }

  /** `front` is what comes before the first id that is repeated, or linked already. */
  ghost predicate EndsAtRepeat(ids: seq<AppID>, front: seq<AppID>, linked: set<AppID>) {
    && front <= ids && Distinct(front) && (forall a <- front :: a !in linked)
    && (|front| < |ids| ==> ids[|front|] in front || ids[|front|] in linked)
  }

  ghost function BeforeRepeat(ids: seq<AppID>, linked: set<AppID>): (front: seq<AppID>)
    ensures EndsAtRepeat(ids, front, linked)
  {
    if ids == [] then []
    else
      var last := ids[|ids| - 1];
      var front := BeforeRepeat(ids[..|ids| - 1], linked);
      if |front| == |ids| - 1 && last !in front && last !in linked then ids else front
  }

  lemma BeforeRepeatUnique(ids: seq<AppID>, front: seq<AppID>, linked: set<AppID>)
    requires EndsAtRepeat(ids, front, linked)
    ensures front == BeforeRepeat(ids, linked)
    ensures front == ids <==> Distinct(ids) && forall a <- ids :: a !in linked
  {
    NoEarlierRepeat(ids, front, BeforeRepeat(ids, linked), linked);
    NoEarlierRepeat(ids, BeforeRepeat(ids, linked), front, linked);
    if |front| < |ids| && ids[|front|] in front {
      var j :| 0 <= j < |front| && front[j] == ids[|front|];
      assert ids[j] == ids[|front|];
    }
  }

  lemma NoEarlierRepeat(ids: seq<AppID>, front: seq<AppID>, other: seq<AppID>, linked: set<AppID>)
    requires EndsAtRepeat(ids, front, linked) && other <= ids && Distinct(other) && forall a <- other :: a !in linked
    ensures |other| <= |front|
  {
    assert forall i | 0 <= i < |other| :: other[i] == ids[i];
  }

  /** `storeNew_noLock`: the old links go, and the package is linked to its applications, one after
      the other, until one of them is linked to it already; only without that it is stored. */
  ghost function Stored(s: Store, info: PackageInfo): Store {
    var p := info.packageId;
    var front := BeforeRepeat(info.appIds, Stale(s, p));
    Store(if front == info.appIds then s.data[p := info] else s.data, Unlinked(s, p) + set a <- front :: Linked(a, p))
  }

  /** The ids are distinct, and none is linked to the package by an entry that was never stored. */
  ghost predicate Storable(s: Store, info: PackageInfo) {
    Distinct(info.appIds) && forall a <- info.appIds :: a !in Stale(s, info.packageId)
  }

  lemma StoredIff(s: Store, info: PackageInfo)
    ensures BeforeRepeat(info.appIds, Stale(s, info.packageId)) == info.appIds <==> Storable(s, info)
    ensures Stored(s, info).data == if Storable(s, info) then s.data[info.packageId := info] else s.data
  {
    BeforeRepeatUnique(info.appIds, BeforeRepeat(info.appIds, Stale(s, info.packageId)), Stale(s, info.packageId));
  }

  ghost predicate GoodPackages(data: Packages) {
    forall p <- data :: data[p].packageId == p && WellFormed(data[p])
  }

  lemma StoredKeepsGood(s: Store, info: PackageInfo)
    requires GoodPackages(s.data) && AppIdsOf(info.data) == Some(info.appIds)
    ensures GoodPackages(Stored(s, info).data)
  {
  }

  /** The links are those a scan would find. */
  ghost predicate Accurate(s: Store) {
    forall l :: l in s.links <==> l.package in s.data && l.appId in s.data[l.package].appIds
  }

  lemma AccurateIsScan(s: Store)
    ensures Accurate(s) <==> s.links == Scan(s.data)
  {
    assert forall l :: l in Scan(s.data) <==> l.package in s.data && l.appId in s.data[l.package].appIds;
  }

  /** Storing a package with a repeated id has put back exactly the links it took away. */
  ghost predicate Unnoticed(data: Packages, info: PackageInfo) {
    forall a :: a in BeforeRepeat(info.appIds, {}) <==> a in IdsIn(data, info.packageId)
  }

  /** The links of all packages but `p` are those a scan would find. */
  ghost predicate AccurateBut(s: Store, p: PackageID) {
    forall l: Link | l.package != p :: l in s.links <==> l.package in s.data && l.appId in s.data[l.package].appIds
  }

  ghost predicate LeavesAccurate(s: Store, info: PackageInfo) {
    && AccurateBut(s, info.packageId) && Stale(s, info.packageId) == {}
    && (Distinct(info.appIds) || Unnoticed(s.data, info))
  }

  /** The links are accurate after storing a package, whatever they were before, exactly if those of
      the other packages were, none was left over for this one, and its application ids are distinct
      or the old package had just the ids that come before the repetition. */
  lemma StoredAccurateIff(s: Store, info: PackageInfo)
    ensures Accurate(Stored(s, info)) <==> LeavesAccurate(s, info)
  {
    var p, s' := info.packageId, Stored(s, info);
    var stale := Stale(s, p);
    var front := BeforeRepeat(info.appIds, stale);
    StoredIff(s, info);
    assert forall a :: a in stale <==> Linked(a, p) in s.links && a !in IdsIn(s.data, p);
    assert forall l: Link | l.package != p :: l in s'.links <==> l in s.links;
    assert forall a :: Linked(a, p) in s'.links <==> a in stale || a in front;
    assert AccurateBut(s', p) <==> AccurateBut(s, p);
    assert Accurate(s') <==> AccurateBut(s', p) && forall a :: Linked(a, p) in s'.links <==> a in IdsIn(s'.data, p);
    if a :| a in stale {
      assert Linked(a, p) in s'.links && a !in IdsIn(s'.data, p);
    }
  }

  /** If the links are accurate, a package is stored exactly when its application ids are distinct.
      Otherwise the packages stay as they are, but the links do not. */
  lemma StoredFromAccurate(s: Store, info: PackageInfo)
    requires Accurate(s)
    ensures Stored(s, info).data == if Distinct(info.appIds) then s.data[info.packageId := info] else s.data
    ensures Accurate(Stored(s, info)) <==> Distinct(info.appIds) || Unnoticed(s.data, info)
  {
    StaleNone(s, info.packageId);
    StoredIff(s, info);
    StoredAccurateIff(s, info);
  }

  lemma StaleNone(s: Store, p: PackageID)
    requires Accurate(s)
    ensures Stale(s, p) == {}
  {
  }

  // ---- the index ----

  type Index = map<AppID, seq<PackageID>>

  ghost predicate Has(index: Index, appId: AppID, p: PackageID) {
    appId in index && p in index[appId]
  }

  ghost predicate NoRepeats(index: Index) {
    forall appId <- index :: Distinct(index[appId])
  }

  ghost function Links(index: Index): set<Link> {
    set a, p | a in index && p in index[a] :: Linked(a, p)
  }

  /** The reverse index says what a scan of the packages would say. */
  ghost predicate Indexed(data: Packages, index: Index) {
    NoRepeats(index) && Accurate(Store(data, Links(index)))
  }

  function Is(p: PackageID): Predicate<(), PackageID> {
    (s: (), item: PackageID) => (item == p, s)
  }

  lemma EraseOne(items: seq<PackageID>, p: PackageID)
    requires Distinct(items)
    ensures var items' := Erase(items, Is(p), ()).vector;
            && Distinct(items')
            && (forall q :: q in items' <==> q in items && q != p)
    ensures Erase(items, Is(p), ()).count <= 1
  {
    var r := Erase(items, Is(p), ());
    EraseVisitsOnce(items, Is(p), ());
    EraseByVerdict(items, Is(p), (), item => item == p);
    OneLess(items, r.vector, p);
  }

  lemma OneLess(items: seq<PackageID>, kept: seq<PackageID>, p: PackageID)
    requires Distinct(items)
    requires forall q :: multiset(kept)[q] == if q == p then 0 else multiset(items)[q]
    ensures Distinct(kept) && |items| - |kept| <= 1
    ensures forall q :: q in kept <==> q in items && q != p
  {
    DistinctMultiset(items);
    DistinctMultiset(kept);
    forall q ensures q in kept <==> q in items && q != p {
      assert (q in kept <==> q in multiset(kept)) && (q in items <==> q in multiset(items));
    }
    DistinctSize(items);
    DistinctSize(kept);
    assert Elements(kept) == Elements(items) - {p};
  }

  // ---- responses ----

  /** A package of a response: the id, the change number and the tree in the buffer may be missing. */
  datatype Response = Response(packageId: Option<PackageID>, changeNumber: Option<nat>, tree: Option<seq<(string, Json)>>)

  predicate Readable(r: Response) {
    r.packageId.None? || r.tree.None? || AppIdsOf(r.tree.value).Some?
  }

  ghost function NewInfo(r: Response): Option<PackageInfo> {
    if r.packageId.None? || !Readable(r) then None
    else
      var change := if r.changeNumber.Some? then r.changeNumber.value else 0;
      if r.tree.None? then Some(PackageInfo(r.packageId.value, change, [], []))
      else Some(PackageInfo(r.packageId.value, change, r.tree.value, AppIdsOf(r.tree.value).value))
  }

  ghost predicate NoRepeatedIds(r: Response) {
    NewInfo(r).Some? ==> Distinct(NewInfo(r).value.appIds)
  }

  ghost predicate IsNewer(data: Packages, r: Response) {
    && NewInfo(r).Some?
    && (r.packageId.value in data ==> data[r.packageId.value].changeNumber < NewInfo(r).value.changeNumber)
  }

  /** An update: a newer package goes through `storeNew_noLock`. */
  ghost function Applied(s: Store, r: Response): Store {
    if IsNewer(s.data, r) then Stored(s, NewInfo(r).value) else s
  }

  ghost function AppliedAll(s: Store, packages: seq<Response>): Store {
    if packages == [] then s else Applied(AppliedAll(s, packages[..|packages| - 1]), packages[|packages| - 1])
  }

  function Entries(ids: seq<AppID>): seq<(string, Json)> {
    if ids == [] then []
    else Entries(ids[..|ids| - 1]) + [(Decimal(|ids| - 1), Leaf(Some(ids[|ids| - 1])))]
  }

  /** A package of a response with the given application ids. */
  function ResponseOf(p: PackageID, changeNumber: nat, ids: seq<AppID>): Response {
    Response(Some(p), Some(changeNumber), Some([("appids", Object(Entries(ids)))]))
  }

  lemma {:induction false} NumbersOf(ids: seq<AppID>)
    ensures Numbers(Entries(ids)) == Some(ids)
  {
    if ids != [] {
      var front, last := ids[..|ids| - 1], ids[|ids| - 1];
      NumbersOf(front);
      NumbersAppend(Entries(front), (Decimal(|ids| - 1), Leaf(Some(last))));
      assert ids == front + [last];
    }
  }

  lemma NumbersAppend(items: seq<(string, Json)>, item: (string, Json))
    requires Numbers(items).Some? && item.1.Leaf? && item.1.number.Some?
    ensures Numbers(items + [item]) == Some(Numbers(items).value + [item.1.number.value])
  {
    assert (items + [item])[..|items|] == items;
  }

  lemma ResponseHasIds(p: PackageID, changeNumber: nat, ids: seq<AppID>)
    ensures NewInfo(ResponseOf(p, changeNumber, ids)) == Some(PackageInfo(p, changeNumber, [("appids", Object(Entries(ids)))], ids))
  {
    NumbersOf(ids);
    assert AppIdsOf([("appids", Object(Entries(ids)))]) == Numbers(Entries(ids));
  }

  /** A package that comes with a repeated id before it was ever stored leaves a link behind.  It is
      refused as long as the new ids include the one left linked ... */
  lemma RefusedWhileLinked(p: PackageID, a: AppID, n: nat, m: nat)
    ensures var first := Applied(Store(map[], {}), ResponseOf(p, n, [a] + [a]));
            && first == Store(map[], {Linked(a, p)}) && !Accurate(first)
            && Applied(first, ResponseOf(p, m, [a])) == first
  {
    LeavesLink(p, a, n);
    RefusesLinked(p, a, PackageInfo(p, m, [("appids", Object(Entries([a])))], [a]));
    ResponseHasIds(p, m, [a]);
  }

  lemma RefusesLinked(p: PackageID, a: AppID, info: PackageInfo)
    requires info.packageId == p && info.appIds == [a]
    ensures var s := Store(map[], {Linked(a, p)}); Stored(s, info) == s
  {
    StaleOne(a, p);
    BeforeRepeatUnique([a], [], {a});
    var none: seq<AppID> := [];
    assert (set b <- none :: Linked(b, p)) == {};
  }

  lemma LeavesLink(p: PackageID, a: AppID, n: nat)
    ensures var first := Applied(Store(map[], {}), ResponseOf(p, n, [a] + [a]));
            first == Store(map[], {Linked(a, p)}) && !Accurate(first)
  {
    ResponseHasIds(p, n, [a] + [a]);
    var empty, first := Store(map[], {}), Store(map[], {Linked(a, p)});
    BeforeRepeatUnique([a] + [a], [a], Stale(empty, p));
    assert Applied(empty, ResponseOf(p, n, [a] + [a])).links == first.links;
    assert Linked(a, p) in first.links;
  }

  /** ... with others it is stored, but a lookup of the id left linked finds it although it does not
      contain that id. */
  lemma StoredWithStrayLink(p: PackageID, a: AppID, b: AppID, m: nat)
    requires a != b
    ensures var third := Applied(Store(map[], {Linked(a, p)}), ResponseOf(p, m, [b]));
            && p in third.data && third.data[p].appIds == [b]
            && third.links == {Linked(a, p), Linked(b, p)} && !Accurate(third)
  {
    var first := Store(map[], {Linked(a, p)});
    ResponseHasIds(p, m, [b]);
    StaleOne(a, p);
    BeforeRepeatUnique([b], [b], {a});
    var third := Applied(first, ResponseOf(p, m, [b]));
    assert third.links == {Linked(a, p), Linked(b, p)};
    assert Linked(a, p) in third.links;
  }

  lemma StaleOne(a: AppID, p: PackageID)
    ensures var s := Store(map[], {Linked(a, p)}); Unlinked(s, p) == s.links && Stale(s, p) == {a}
  {
    assert Linked(a, p) in Unlinked(Store(map[], {Linked(a, p)}), p);
  }

  /** The change number of a response, 0 if it is missing. */
  function ChangeOf(r: Response): nat {
    if r.changeNumber.Some? then r.changeNumber.value else 0
  }

  /** A package of a response replaces a stored one exactly if its change number is larger, and one that
      is not stored is added; with what the response says, provided that it can be read and, by StoredIff,
      that its application ids allow it.  Otherwise nothing is replaced. */
  lemma AppliedReplaces(s: Store, r: Response)
    requires r.packageId.Some?
    ensures var p := r.packageId.value;
            var readable := r.tree.None? || AppIdsOf(r.tree.value).Some?;
            var tree := if r.tree.Some? then r.tree.value else [];
            var ids := if r.tree.Some? && readable then AppIdsOf(r.tree.value).value else [];
            var newer := p !in s.data || s.data[p].changeNumber < ChangeOf(r);
            var info := PackageInfo(p, ChangeOf(r), tree, ids);
            Applied(s, r).data == if readable && newer && Storable(s, info) then s.data[p := info] else s.data
  {
    if IsNewer(s.data, r) {
      StoredIff(s, NewInfo(r).value);
    }
  }

  lemma NothingApplied(s: Store, r: Response)
    requires r.packageId.None?
    ensures Applied(s, r) == s
  {
  }

  /** The largest change number among that of the stored package and those of the responses for it. */
  ghost function Largest(data: Packages, packages: seq<Response>, p: PackageID): Option<nat> {
    if packages == [] then (if p in data then Some(data[p].changeNumber) else None)
    else
      var before, r := Largest(data, packages[..|packages| - 1], p), packages[|packages| - 1];
      if r.packageId != Some(p) || !Readable(r) then before
      else if before.Some? && before.value >= ChangeOf(r) then before
      else Some(ChangeOf(r))
  }

  /** Over any run of responses without repeated ids, the package stored is one with the largest change
      number there was for it. */
  lemma {:induction false} LargestIsStored(s: Store, packages: seq<Response>, p: PackageID)
    requires Accurate(s) && forall r <- packages :: NoRepeatedIds(r)
    ensures var data := AppliedAll(s, packages).data;
            Largest(s.data, packages, p) == if p in data then Some(data[p].changeNumber) else None
  {
    if packages != [] {
      var front, r := packages[..|packages| - 1], packages[|packages| - 1];
      LargestIsStored(s, front, p);
      AppliedAllAccurate(s, front);
      assert r in packages;
      LargestAfterOne(AppliedAll(s, front), r, p);
    }
  }

  lemma LargestAfterOne(s: Store, r: Response, p: PackageID)
    requires Accurate(s) && NoRepeatedIds(r)
    ensures var data := Applied(s, r).data;
            if r.packageId != Some(p) || !Readable(r) || (p in s.data && s.data[p].changeNumber >= ChangeOf(r))
            then (p in data <==> p in s.data) && (p in s.data ==> data[p] == s.data[p])
            else p in data && data[p].changeNumber == ChangeOf(r)
  {
    if r.packageId.Some? {
      AppliedReplaces(s, r);
      StaleNone(s, r.packageId.value);
    }
  }

  /** While no id is repeated, newer packages just replace older ones, and the links stay accurate. */
  lemma AppliedAccurate(s: Store, r: Response)
    requires Accurate(s) && NoRepeatedIds(r)
    ensures Accurate(Applied(s, r))
    ensures Applied(s, r).data == if IsNewer(s.data, r) then s.data[r.packageId.value := NewInfo(r).value] else s.data
  {
    if IsNewer(s.data, r) {
      StoredFromAccurate(s, NewInfo(r).value);
    }
  }

  lemma {:induction false} AppliedAllAccurate(s: Store, packages: seq<Response>)
    requires Accurate(s) && forall r <- packages :: NoRepeatedIds(r)
    ensures Accurate(AppliedAll(s, packages))
  {
    if packages != [] {
      AppliedAllAccurate(s, packages[..|packages| - 1]);
      AppliedAccurate(AppliedAll(s, packages[..|packages| - 1]), packages[|packages| - 1]);
    }
  }

  ghost predicate NoneOlder(data: Packages, data': Packages) {
    forall p <- data :: p in data' && data[p].changeNumber <= data'[p].changeNumber
  }

  /** Repeated ids or not, no package is ever replaced by an older one. */
  lemma {:induction false} NeverOlder(s: Store, packages: seq<Response>)
    ensures NoneOlder(s.data, AppliedAll(s, packages).data)
  {
    if packages != [] {
      NeverOlder(s, packages[..|packages| - 1]);
    }
  }

  /** The iteration order of a map is unspecified. */
  method SomeOrder(keys: set<PackageID>) returns (order: seq<PackageID>)
    ensures Distinct(order) && Elements(order) == keys
  {
    order := [];
    var rest := keys;
    while rest != {}
      invariant Distinct(order) && Elements(order) + rest == keys && Elements(order) !! rest
    {
      var p :| p in rest;
      assert Elements(order + [p]) == Elements(order) + {p};
      assert p !in Elements(order);
      order, rest := order + [p], rest - {p};
    }
  }

  class MyPackageData {
    var data: Packages
    var appData: Index
    var wasUpdated: bool
    var file: seq<(string, Json)>

    ghost function Contents(): Store
      reads this
    {
      Store(data, Links(appData))
    }

    /** The file is right unless an update is still to be saved. */
    ghost predicate Valid()
      reads this
    {
      && NoRepeats(appData)
      && GoodPackages(data)
      && (!wasUpdated ==> Loaded(file).Some? && Loaded(file).value.data == data)
    }

    /** The first half of `storeNew_noLock`. */
    method Unlink(p: PackageID)
      requires NoRepeats(appData)
      modifies this`appData
      ensures NoRepeats(appData) && Links(appData) == Unlinked(old(Contents()), p)
    {
      if p in data {
        var appIds := data[p].appIds;
        for i := 0 to |appIds|
          invariant NoRepeats(appData)
          invariant forall a, q :: Has(appData, a, q) <==> Has(old(appData), a, q) && !(q == p && a in appIds[..i])
        {
          var appId := appIds[i];
          assert appIds[..i + 1] == appIds[..i] + [appId];
          if appId in appData {
            ghost var before := appData;
            EraseOne(appData[appId], p);
            var erased := Erase(appData[appId], Is(p), ());
            assert erased.count == 0 || erased.count == 1;
            appData := appData[appId := erased.vector];
            assert forall a, q :: Has(appData, a, q) <==> Has(before, a, q) && !(q == p && a == appId);
          }
        }
        assert appIds[..|appIds|] == appIds;
      }
      assert forall a, q :: Has(appData, a, q) <==> Has(old(appData), a, q) && !(q == p && a in IdsIn(data, p));
      HasIsLinks(old(appData));
      HasIsLinks(appData);
      assert Links(appData) == Unlinked(old(Contents()), p);
    }

    /** The second half: false is the early return in the link loop. */
    method Link(info: PackageInfo) returns (stored: bool)
      requires NoRepeats(appData)
      modifies this`appData, this`data
      ensures var front := BeforeRepeat(info.appIds, LinkedTo(Links(old(appData)), info.packageId));
              && (stored <==> front == info.appIds)
              && NoRepeats(appData) && Links(appData) == Links(old(appData)) + set a <- front :: Linked(a, info.packageId)
      ensures data == if stored then old(data)[info.packageId := info] else old(data)
    {
      var appIds := info.appIds;
      ghost var linked := LinkedTo(Links(appData), info.packageId);
      HasIsLinks(appData);
      LinkedToIs(appData, info.packageId);
      for i := 0 to |appIds|
        invariant Distinct(appIds[..i]) && NoRepeats(appData) && data == old(data)
        invariant forall a <- appIds[..i] :: a !in linked
        invariant forall a, q :: Has(appData, a, q) <==> Has(old(appData), a, q) || (q == info.packageId && a in appIds[..i])
      {
        var appId := appIds[i];
        assert appIds[..i + 1] == appIds[..i] + [appId];
        ghost var before := appData;
        if appId !in appData {
          appData := appData[appId := []];
        }
        var items := appData[appId];
        assert info.packageId in items <==> Has(before, appId, info.packageId);
        for k := 0 to |items|
          invariant info.packageId !in items[..k]
        {
          if items[k] == info.packageId {
            BeforeRepeatUnique(appIds, appIds[..i], linked);
            assert forall a, q :: Has(appData, a, q) <==> Has(before, a, q);
            LinksAdded(old(appData), appData, appIds[..i], info.packageId);
            return false;
          }
        }
        assert items[..|items|] == items;
        appData := appData[appId := items + [info.packageId]];
        assert forall a, q :: Has(appData, a, q) <==> Has(before, a, q) || (q == info.packageId && a == appId);
      }
      assert appIds[..|appIds|] == appIds;
      BeforeRepeatUnique(appIds, appIds, linked);
      LinksAdded(old(appData), appData, appIds, info.packageId);
      data := data[info.packageId := info];
      stored := true;
    }

    /** From any index: the package replaces any earlier one exactly when its application ids are
        distinct and none is linked to it by an entry that was never stored. */
    method StoreNew(info: PackageInfo)
      requires NoRepeats(appData) && GoodPackages(data)
      requires AppIdsOf(info.data) == Some(info.appIds)
      modifies this`data, this`appData
      ensures NoRepeats(appData) && GoodPackages(data)
      ensures Contents() == Stored(old(Contents()), info)
      ensures data == if Storable(old(Contents()), info) then old(data)[info.packageId := info] else old(data)
      ensures Accurate(Contents()) <==> LeavesAccurate(old(Contents()), info)
    {
      StoredKeepsGood(Contents(), info);
      StoredIff(Contents(), info);
      StoredAccurateIff(Contents(), info);
      Unlink(info.packageId);
      var stored := Link(info);
    }

    /** The loading constructor, for a file whose packages are all readable. */
    constructor (contents: seq<(string, Json)>)
      requires forall i | 0 <= i < |contents| :: FromJson(contents[i].1).Some?
      ensures Valid() && !wasUpdated && file == contents && Loaded(contents) == Some(Contents())
      ensures (forall i | 0 <= i < |contents| :: Distinct(FromJson(contents[i].1).value.appIds)) ==> Accurate(Contents())
    {
      data, appData, wasUpdated, file := map[], map[], false, contents;
      new;
      LoadedIffReadable(contents);
      assert contents[..0] == [];
      assert Links(appData) == {};
      for i := 0 to |contents|
        invariant file == contents && !wasUpdated
        invariant NoRepeats(appData) && GoodPackages(data)
        invariant Loaded(contents[..i]) == Some(Contents())
      {
        LoadedPrefix(contents, i + 1);
        assert contents[..i + 1][..i] == contents[..i];
        StoreNew(FromJson(contents[i].1).value);
      }
      assert contents[..|contents|] == contents;
      if forall i | 0 <= i < |contents| :: Distinct(FromJson(contents[i].1).value.appIds) {
        LoadedAccurate(contents);
      }
    }

    /** An unreadable package in the file makes the constructor throw. */
    static method Load(contents: seq<(string, Json)>) returns (result: Option<MyPackageData>)
      ensures result.Some? <==> forall i | 0 <= i < |contents| :: FromJson(contents[i].1).Some?
      ensures result.Some? ==> var d := result.value;
                fresh(d) && d.Valid() && d.file == contents && Loaded(contents) == Some(d.Contents())
    {
      for i := 0 to |contents|
        invariant forall j | 0 <= j < i :: FromJson(contents[j].1).Some?
      {
        if FromJson(contents[i].1).None? {
          return None;
        }
      }
      var d := new MyPackageData(contents);
      result := Some(d);
    }

    /** False when reading the application ids throws. */
    method Update(package: Response) returns (ok: bool)
      requires Valid()
      modifies this
      ensures Valid()
      ensures ok <==> Readable(package)
      ensures Contents() == Applied(old(Contents()), package) && file == old(file)
      ensures NoneOlder(old(data), data)
      ensures Accurate(old(Contents())) && NoRepeatedIds(package) ==> Accurate(Contents())
      ensures wasUpdated == (old(wasUpdated) || IsNewer(old(data), package))
    {
      AppliedKeeps(Contents(), package);
      if package.packageId.None? { return true; }
      var info := PackageInfo(package.packageId.value, 0, [], []);
      if package.changeNumber.Some? {
        info := info.(changeNumber := package.changeNumber.value);
      }
      if package.tree.Some? {
        var appIds := AppIdsOf(package.tree.value);
        if appIds.None? { return false; }
        info := info.(data := package.tree.value, appIds := appIds.value);
      }
      assert Some(info) == NewInfo(package);
      if info.packageId !in data || data[info.packageId].changeNumber < info.changeNumber {
        StoreNew(info);
        wasUpdated := true;
      }
      ok := true;
    }

    /** The handler of a response: all its packages, then the file.  An exception ends it early. */
    method HandleResponse(packages: seq<Response>) returns (ok: bool)
      requires Valid()
      modifies this
      ensures Valid()
      ensures ok <==> forall r <- packages :: Readable(r)
      ensures ok ==> Contents() == AppliedAll(old(Contents()), packages) && !wasUpdated
      ensures !ok ==> file == old(file)
      ensures NoneOlder(old(data), data)
      ensures Accurate(old(Contents())) && (forall r <- packages :: NoRepeatedIds(r)) ==> Accurate(Contents())
    {
      for i := 0 to |packages|
        invariant Valid() && file == old(file)
        invariant forall j | 0 <= j < i :: Readable(packages[j])
        invariant Contents() == AppliedAll(old(Contents()), packages[..i])
      {
        assert packages[..i + 1][..i] == packages[..i];
        var done := Update(packages[i]);
        if !done {
          assert packages[i] in packages;
          AppliedAllKeeps(old(Contents()), packages, i + 1);
          return false;
        }
      }
      assert packages[..|packages|] == packages;
      AppliedAllKeeps(old(Contents()), packages, |packages|);
      var order := SomeOrder(data.Keys);
      Save(order);
      ok := true;
    }

    /** `order` is the iteration order of the map.  Whatever the index has become, loading the file
        gives the packages, with accurate links. */
    method Save(order: seq<PackageID>)
      requires Valid() && Distinct(order) && Elements(order) == data.Keys
      modifies this`file, this`wasUpdated
      ensures Valid() && !wasUpdated
      ensures forall p <- order :: p in data
      ensures file == if old(wasUpdated) then FileJson(data, order) else old(file)
      ensures old(wasUpdated) ==> Loaded(file) == Some(Store(data, Scan(data)))
    {
      ReloadGivesSame(data, order);
      if wasUpdated {
        file := FileJson(data, order);
        wasUpdated := false;
      }
    }

    /** Only a package at least as new as the licence is found. */
    method LookupLicense(packageId: PackageID, changeNumber: nat) returns (result: Option<PackageInfo>)
      ensures result.Some? <==> packageId in data && changeNumber <= data[packageId].changeNumber
      ensures result.Some? ==> result.value == data[packageId]
    {
      result := None;
      if packageId in data && data[packageId].changeNumber >= changeNumber {
        result := Some(data[packageId]);
      }
    }

    /** The stored packages that the application is linked to, each once; that is, when the links are
        accurate, the stored packages that contain it, and nothing else. */
    method LookupApp(appId: AppID) returns (result: seq<PackageInfo>)
      requires Valid()
      ensures Distinct(result)
      ensures forall info :: info in result <==> info in data.Values && Has(appData, appId, info.packageId)
      ensures Indexed(data, appData) ==> forall info :: info in result <==> info in data.Values && appId in info.appIds
    {
      result := [];
      ghost var found: seq<PackageID> := [];
      if appId in appData {
        var items := appData[appId];
        for i := 0 to |items|
          invariant FoundIn(data, found, result)
          invariant forall p :: p in found <==> p in items[..i] && p in data
        {
          assert items[..i + 1] == items[..i] + [items[i]];
          if items[i] in data {
            assert items[i] !in items[..i];
            result, found := result + [data[items[i]]], found + [items[i]];
          }
        }
        assert items[..|items|] == items;
      }
      FoundAll(data, found, result);
      HasIsLinks(appData);
      assert forall p :: p in found <==> Has(appData, appId, p) && p in data;
      if Indexed(data, appData) {
        LookupAccurate(data, appData, appId);
      }
    }
  }

  /** `result` are the packages with the ids `found`. */
  ghost predicate FoundIn(data: Packages, found: seq<PackageID>, result: seq<PackageInfo>) {
    && Distinct(found) && |result| == |found|
    && forall j | 0 <= j < |found| :: found[j] in data && result[j] == data[found[j]]
  }

  lemma FoundAll(data: Packages, found: seq<PackageID>, result: seq<PackageInfo>)
    requires GoodPackages(data) && FoundIn(data, found, result)
    ensures Distinct(result)
    ensures forall info :: info in result <==> info in data.Values && info.packageId in found
  {
    assert forall j | 0 <= j < |found| :: result[j].packageId == found[j] && found[j] in found;
    forall info | info in data.Values && info.packageId in found ensures info in result {
      var p :| p in data && data[p] == info;
      var j :| 0 <= j < |found| && found[j] == p;
      assert result[j] == info;
    }
  }

  lemma LookupAccurate(data: Packages, index: Index, appId: AppID)
    requires GoodPackages(data) && Indexed(data, index)
    ensures forall info <- data.Values :: Has(index, appId, info.packageId) <==> appId in info.appIds
  {
    HasIsLinks(index);
    forall info <- data.Values ensures Has(index, appId, info.packageId) <==> appId in info.appIds {
      var p :| p in data && data[p] == info;
      assert Linked(appId, p) in Links(index) <==> appId in data[p].appIds;
    }
  }

  lemma HasIsLinks(index: Index)
    ensures forall l :: l in Links(index) <==> Has(index, l.appId, l.package)
  {
  }

  lemma LinkedToIs(index: Index, p: PackageID)
    ensures forall a :: a in LinkedTo(Links(index), p) <==> Has(index, a, p)
  {
    forall a ensures a in LinkedTo(Links(index), p) <==> Has(index, a, p) {
      if Has(index, a, p) {
        assert Linked(a, p) in Links(index);
      }
    }
  }

  lemma LinksAdded(before: Index, index: Index, front: seq<AppID>, p: PackageID)
    requires forall a, q :: Has(index, a, q) <==> Has(before, a, q) || (q == p && a in front)
    ensures Links(index) == Links(before) + set a <- front :: Linked(a, p)
  {
    HasIsLinks(before);
    HasIsLinks(index);
  }

  lemma AppliedKeeps(s: Store, r: Response)
    ensures NoneOlder(s.data, Applied(s, r).data)
    ensures Accurate(s) && NoRepeatedIds(r) ==> Accurate(Applied(s, r))
  {
    if Accurate(s) && NoRepeatedIds(r) {
      AppliedAccurate(s, r);
    }
  }

  lemma AppliedAllKeeps(s: Store, packages: seq<Response>, n: nat)
    requires n <= |packages|
    ensures NoneOlder(s.data, AppliedAll(s, packages[..n]).data)
    ensures Accurate(s) && (forall r <- packages :: NoRepeatedIds(r)) ==> Accurate(AppliedAll(s, packages[..n]))
  {
    NeverOlder(s, packages[..n]);
    if Accurate(s) && forall r <- packages :: NoRepeatedIds(r) {
      AppliedAllAccurate(s, packages[..n]);
    }
  }

  // ---- the file ----

  function Decimal(n: nat): string {
    if n < 10 then [('0' as int + n) as char] else Decimal(n / 10) + [('0' as int + n % 10) as char]
  }

  ghost function Parsed(s: string): int {
    if s == "" then 0 else 10 * Parsed(s[..|s| - 1]) + (s[|s| - 1] as int - '0' as int)
  }

  lemma {:induction false} DecimalParsed(n: nat)
    ensures Parsed(Decimal(n)) == n
  {
    if n >= 10 {
      DecimalParsed(n / 10);
      assert Decimal(n)[..|Decimal(n)| - 1] == Decimal(n / 10);
    } else {
      assert Decimal(n)[..0] == "";
    }
  }

  /** The file written for the packages, visited in `order`. */
  function FileJson(data: Packages, order: seq<PackageID>): seq<(string, Json)>
    requires forall p <- order :: p in data
  {
    if order == [] then []
    else
      var p := order[|order| - 1];
      Assign(FileJson(data, order[..|order| - 1]), Decimal(p), ToJson(data[p]))
  }

  /** What the loading constructor makes of a file, one item after the other; nothing, if a package in
      it is unreadable. */
  ghost function Loaded(items: seq<(string, Json)>): Option<Store> {
    if items == [] then Some(Store(map[], {}))
    else
      var front, info := Loaded(items[..|items| - 1]), FromJson(items[|items| - 1].1);
      if front.Some? && info.Some? then Some(Stored(front.value, info.value)) else None
  }

  lemma {:induction false} LoadedIffReadable(items: seq<(string, Json)>)
    ensures Loaded(items).Some? <==> forall i | 0 <= i < |items| :: FromJson(items[i].1).Some?
  {
    if items != [] {
      var front := items[..|items| - 1];
      LoadedIffReadable(front);
      assert forall i | 0 <= i < |front| :: items[i] == front[i];
    }
  }

  lemma {:induction false} LoadedAccurate(items: seq<(string, Json)>)
    requires forall i | 0 <= i < |items| :: FromJson(items[i].1).Some? && Distinct(FromJson(items[i].1).value.appIds)
    ensures Loaded(items).Some? && Accurate(Loaded(items).value)
  {
    if items != [] {
      var front := items[..|items| - 1];
      assert forall i | 0 <= i < |front| :: items[i] == front[i];
      LoadedAccurate(front);
      StoredFromAccurate(Loaded(front).value, FromJson(items[|items| - 1].1).value);
    }
  }

  lemma {:induction false} LoadedPrefix(items: seq<(string, Json)>, n: nat)
    requires n <= |items| && Loaded(items).Some?
    ensures Loaded(items[..n]).Some?
  {
    if n < |items| {
      LoadedPrefix(items[..|items| - 1], n);
      assert items[..|items| - 1][..n] == items[..n];
    } else {
      assert items[..n] == items;
    }
  }

  lemma {:induction false} NoSuchKey(items: seq<(string, Json)>, key: string)
    requires forall i :: 0 <= i < |items| ==> items[i].0 != key
    ensures IfContains(items, key).None?
  {
    if items != [] {
      NoSuchKey(items[..|items| - 1], key);
    }
  }

  lemma KeyIsNew(items: seq<(string, Json)>, order: seq<PackageID>, p: PackageID)
    requires |items| == |order| && forall i :: 0 <= i < |order| ==> items[i].0 == Decimal(order[i])
    requires p !in order
    ensures IfContains(items, Decimal(p)).None?
  {
    forall i | 0 <= i < |items| ensures items[i].0 != Decimal(p) {
      DecimalParsed(order[i]);
      DecimalParsed(p);
    }
    NoSuchKey(items, Decimal(p));
  }

  /** `items` has one item for each package of `order`, in order. */
  ghost predicate Follows(items: seq<(string, Json)>, data: Packages, order: seq<PackageID>) {
    && |items| == |order|
    && forall i :: 0 <= i < |order| ==> order[i] in data && items[i] == (Decimal(order[i]), ToJson(data[order[i]]))
  }

  lemma FollowsAppend(items: seq<(string, Json)>, data: Packages, order: seq<PackageID>, p: PackageID)
    requires Follows(items, data, order) && p in data
    ensures Follows(items + [(Decimal(p), ToJson(data[p]))], data, order + [p])
  {
  }

  /** Different packages have different keys, so that the file has one item for each, in order. */
  lemma {:induction false} FileFollowsOrder(data: Packages, order: seq<PackageID>)
    requires Distinct(order) && forall p <- order :: p in data
    ensures Follows(FileJson(data, order), data, order)
  {
    if order != [] {
      var front, p := order[..|order| - 1], order[|order| - 1];
      FileFollowsOrder(data, front);
      KeyIsNew(FileJson(data, front), front, p);
      FollowsAppend(FileJson(data, front), data, front, p);
      assert order == front + [p];
    }
  }

  ghost function Only(data: Packages, order: seq<PackageID>): Packages {
    map p | p in order && p in data :: data[p]
  }

  lemma {:induction false} LoadedFollowsOrder(data: Packages, order: seq<PackageID>, items: seq<(string, Json)>)
    requires GoodPackages(data) && (forall p <- order :: p in data)
    requires Follows(items, data, order)
    ensures Loaded(items) == Some(Store(Only(data, order), Scan(Only(data, order))))
  {
    if order != [] {
      var front, p := order[..|order| - 1], order[|order| - 1];
      assert order == front + [p];
      LoadedFollowsOrder(data, front, items[..|items| - 1]);
      JsonRoundTrip(data[p]);
      assert items[|items| - 1].1 == ToJson(data[p]);
      assert Only(data, front)[p := data[p]] == Only(data, order);
      var s := Store(Only(data, front), Scan(Only(data, front)));
      StoredScans(s, data[p]);
    } else {
      assert Only(data, order) == map[];
      assert Scan(map[]) == {};
    }
  }

  lemma StoredScans(s: Store, info: PackageInfo)
    requires s.links == Scan(s.data) && Distinct(info.appIds)
    ensures var data := s.data[info.packageId := info]; Stored(s, info) == Store(data, Scan(data))
  {
    AccurateIsScan(s);
    StoredFromAccurate(s, info);
    AccurateIsScan(Stored(s, info));
  }

  /** Saving and loading gives the same packages, with accurate links, whatever the order of the map. */
  lemma ReloadGivesSame(data: Packages, order: seq<PackageID>)
    requires GoodPackages(data) && Distinct(order) && Elements(order) == data.Keys
    ensures (forall p <- order :: p in data) && Loaded(FileJson(data, order)) == Some(Store(data, Scan(data)))
  {
    assert forall p <- order :: p in Elements(order);
    FileFollowsOrder(data, order);
    LoadedFollowsOrder(data, order, FileJson(data, order));
    assert Only(data, order) == data by {
      assert forall p <- data :: p in Elements(order);
    }
  }

  /** The index is determined by the packages, up to the order within the lists: the one rebuilt by
      loading answers every lookup like the one maintained all along. */
  lemma IndexDetermined(data: Packages, one: Index, two: Index)
    requires Indexed(data, one) && Indexed(data, two)
    ensures forall appId :: multiset(if appId in one then one[appId] else []) == multiset(if appId in two then two[appId] else [])
  {
    HasIsLinks(one);
    HasIsLinks(two);
    forall appId
      ensures multiset(if appId in one then one[appId] else []) == multiset(if appId in two then two[appId] else [])
    {
      var a, b := if appId in one then one[appId] else [], if appId in two then two[appId] else [];
      DistinctMultiset(a);
      DistinctMultiset(b);
      forall p ensures multiset(a)[p] == multiset(b)[p] {
        assert Has(one, appId, p) <==> Linked(appId, p) in Links(one);
        assert Has(two, appId, p) <==> Linked(appId, p) in Links(two);
        assert (p in a <==> p in multiset(a)) && (p in b <==> p in multiset(b));
      }
    }
  }
}
