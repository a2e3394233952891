/**
 * The portfolio repository (`portfolio_items`): list with one-time seeding, create, patch,
 * delete, the one-shot migration out of `localStorage`, and the listing done by the
 * subscription helper.
 */
module Portfolio {
  import opened Json
  import opened Bags
  import opened Store
  import opened Collection
  import Browser

  const FetchFailed := "Failed to fetch portfolio items"
  const SaveFailed := "Failed to save portfolio item"
  const UpdateFailed := "Failed to update portfolio item"
  const DeleteFailed := "Failed to delete portfolio item"

  /** The two built-in example projects written when the collection is found empty. */
  const SampleData: seq<Fields> := [
    map[
      "title" := Text("E-commerce Mobile App"),
      "description" := Text("A full-featured mobile shopping app built with React Native and Node.js backend. Features include user authentication, product catalog, shopping cart, and payment integration."),
      "image" := Text("https://images.pexels.com/photos/1181244/pexels-photo-1181244.jpeg?auto=compress&cs=tinysrgb&w=800"),
      "technologies" := TextList(["React Native", "Node.js", "MongoDB", "Stripe"]),
      "type" := Text("mobile"),
      "githubUrl" := Text("https://github.com"),
      "liveUrl" := Text("https://app-store-link.com")
    ],
    map[
      "title" := Text("Task Management Dashboard"),
      "description" := Text("A modern web application for project management with real-time collaboration, drag-and-drop interface, and team chat functionality."),
      "image" := Text("https://images.pexels.com/photos/1181677/pexels-photo-1181677.jpeg?auto=compress&cs=tinysrgb&w=800"),
      "technologies" := TextList(["Next.js", "TypeScript", "PostgreSQL", "Socket.io"]),
      "type" := Text("web"),
      "githubUrl" := Text("https://github.com"),
      "liveUrl" := Text("https://taskmanager-demo.com")
    ]
  ]

  /** The samples are two drafts: a mobile and a web project with four tags each. */
  lemma SampleFacts()
    ensures |SampleData| == 2
    ensures forall i :: 0 <= i < 2 ==> IsDraft(SampleData[i])
    ensures SampleData[0]["title"] == Text("E-commerce Mobile App") && SampleData[0]["type"] == Text("mobile")
    ensures SampleData[1]["title"] == Text("Task Management Dashboard") && SampleData[1]["type"] == Text("web")
    ensures forall i :: 0 <= i < 2 ==> SampleData[i]["technologies"].TextList? && |SampleData[i]["technologies"].items| == 4
  {
  }

  /**
   * What seeding stores: each sample whose write succeeded, in order; when both writes
   * succeed, both samples.
   */
  lemma SeedWrites(seedOk: nat -> bool, now: int)
    ensures WrittenAll(SampleData, seedOk, now) ==
      (if seedOk(0) then [Written(SampleData[0], now)] else []) +
      (if seedOk(1) then [Written(SampleData[1], now)] else [])
    ensures |WrittenAll(SampleData, seedOk, now)| == 0 <==> !seedOk(0) && !seedOk(1)
  {
    var first := SampleData[..1];
    assert first[..0] == [];
    assert first == [SampleData[0]];
    assert WrittenAll(first, seedOk, now) == (if seedOk(0) then [Written(SampleData[0], now)] else []);
  }

  /** `savePortfolioItem`: a fresh key, the draft with the server time, the echo. */
  method SavePortfolioItem(db: Database, item: Fields, now: int, clientNow: int, ok: bool)
    returns (r: Result<Record>)
    requires IsDraft(item)
    modifies db`tree
    ensures ok <==> r.Success?
    ensures !ok ==> r == Failure(SaveFailed) && db.tree == old(db.tree)
    ensures ok ==>
      && IdOf(r.value) !in old(db.Subtree(PortfolioItems)) && IsKey(IdOf(r.value))
      && r.value == Echo(item, IdOf(r.value), clientNow)
      && db.tree == old(db.tree).With(PortfolioItems, old(db.Subtree(PortfolioItems))[IdOf(r.value) := Written(item, now)])
    ensures old(db.Valid()) ==> db.Valid()
  {
    var key := db.Push(PortfolioItems);
    var itemData := item + map["createdAt" := Number(now)];
    assert "createdAt" in Prune(itemData);
    var done := db.Set(PortfolioItems, key, itemData, ok);
    if !done {
      return Failure(SaveFailed);
    }
    r := Success(Echo(item, key, clientNow));
  }

  /**
   * `updatePortfolioItem`: a field-level patch at `id`; a missing `id` is created by the store,
   * and an id `ref` refuses fails.
   */
  method UpdatePortfolioItem(db: Database, id: string, updates: Fields, ok: bool) returns (r: Result<()>)
    requires IsDraft(updates)
    requires id != "" && '/' !in id
    modifies db`tree
    ensures ok && LegalPath(id) ==> r == Success(())
    ensures ok && LegalPath(id) ==> db.tree == old(db.tree).With(PortfolioItems, UpdateChild(old(db.Subtree(PortfolioItems)), id, updates))
    ensures !(ok && LegalPath(id)) ==> r == Failure(UpdateFailed) && db.tree == old(db.tree)
    ensures old(db.Valid()) ==> db.Valid()
  {
    var done := db.Update(PortfolioItems, id, updates, ok);
    r := if done then Success(()) else Failure(UpdateFailed);
  }

  /**
   * `deletePortfolioItem`: removes `id` and nothing else; a missing `id` is no error, the
   * empty id removes every project, and an id `ref` refuses fails.
   */
  method DeletePortfolioItem(db: Database, id: string, ok: bool) returns (r: Result<()>)
    requires '/' !in id
    modifies db`tree
    ensures ok && LegalPath(id) ==> r == Success(())
    ensures ok && LegalPath(id) ==> db.tree == old(db.tree).With(PortfolioItems, RemoveChild(old(db.Subtree(PortfolioItems)), id))
    ensures ok && LegalPath(id) && id != "" ==> db.Subtree(PortfolioItems) == old(db.Subtree(PortfolioItems)) - {id}
    ensures ok && id == "" ==> db.Subtree(PortfolioItems) == map[]
    ensures ok && id != "" && id !in old(db.Subtree(PortfolioItems)) ==> db.Subtree(PortfolioItems) == old(db.Subtree(PortfolioItems))
    ensures !(ok && LegalPath(id)) ==> r == Failure(DeleteFailed) && db.tree == old(db.tree)
    ensures old(db.Valid()) ==> db.Valid()
  {
    var done := db.Remove(PortfolioItems, id, ok);
    r := if done then Success(()) else Failure(DeleteFailed);
  }

  /**
   * `Promise.all(drafts.map(savePortfolioItem))`: every create is issued, whatever happens
   * to the others; write `i` succeeds exactly if `outcome(i)`.
   */
  method SaveAll(db: Database, drafts: seq<Fields>, now: int, clientNow: int, outcome: nat -> bool)
    returns (allOk: bool)
    requires forall i :: 0 <= i < |drafts| ==> IsDraft(drafts[i])
    modifies db`tree
    ensures allOk == AllSucceed(|drafts|, outcome)
    ensures db.tree == old(db.tree).With(PortfolioItems, db.Subtree(PortfolioItems))
    ensures Bag(db.Subtree(PortfolioItems)) == Bag(old(db.Subtree(PortfolioItems))) + multiset(WrittenAll(drafts, outcome, now))
    ensures Extends(db.Subtree(PortfolioItems), old(db.Subtree(PortfolioItems)))
    ensures old(db.Valid()) ==> db.Valid()
  {
    ghost var start := db.tree;
    allOk := true;
    var i := 0;
    while i < |drafts|
      invariant 0 <= i <= |drafts|
      invariant Batch(db.tree, start, drafts[..i], outcome, now)
      invariant allOk == AllSucceed(i, outcome)
      invariant old(db.Valid()) ==> db.Valid()
    {
      allOk := SaveNext(db, start, drafts, i, now, clientNow, outcome, allOk);
      i := i + 1;
    }
    assert drafts[..i] == drafts;
  }

  /**
   * The tree after the creates of `done` from `start`: only the portfolio subtree changed,
   * it keeps every child it had and its bag has grown by the stored records.
   */
  ghost predicate Batch(tree: Tree, start: Tree, done: seq<Fields>, outcome: nat -> bool, now: int) {
    && tree == start.With(PortfolioItems, tree.At(PortfolioItems))
    && Bag(tree.At(PortfolioItems)) == Bag(start.At(PortfolioItems)) + multiset(WrittenAll(done, outcome, now))
    && Extends(tree.At(PortfolioItems), start.At(PortfolioItems))
  }

  /** Write `i` of a batch. */
  method SaveNext(db: Database, ghost start: Tree, drafts: seq<Fields>, i: nat, now: int, clientNow: int,
                  outcome: nat -> bool, okSoFar: bool) returns (allOk: bool)
    requires i < |drafts| && IsDraft(drafts[i])
    requires Batch(db.tree, start, drafts[..i], outcome, now)
    requires okSoFar == AllSucceed(i, outcome)
    modifies db`tree
    ensures Batch(db.tree, start, drafts[..i + 1], outcome, now)
    ensures allOk == AllSucceed(i + 1, outcome)
    ensures old(db.Valid()) ==> db.Valid()
  {
    ghost var mid := db.Subtree(PortfolioItems);
    var saved := SaveCounted(db, drafts[i], now, clientNow, outcome(i));
    allOk := okSoFar && saved;
    AllSucceedStep(i, outcome);
    WrittenAllStep(drafts, i, outcome, now);
    ExtendsTrans(db.Subtree(PortfolioItems), mid, start.At(PortfolioItems));
  }

  /** `after` keeps every child of `before` as it was. */
  ghost predicate Extends(after: map<string, Fields>, before: map<string, Fields>) {
    forall k :: k in before ==> k in after && after[k] == before[k]
  }

  lemma ExtendsTrans(c: map<string, Fields>, b: map<string, Fields>, a: map<string, Fields>)
    requires Extends(c, b) && Extends(b, a)
    ensures Extends(c, a)
  {
  }

  /** One create of a batch, stated on the bag of stored records. */
  method SaveCounted(db: Database, draft: Fields, now: int, clientNow: int, ok: bool) returns (saved: bool)
    requires IsDraft(draft)
    modifies db`tree
    ensures saved == ok
    ensures db.tree == old(db.tree).With(PortfolioItems, db.Subtree(PortfolioItems))
    ensures Bag(db.Subtree(PortfolioItems)) ==
      Bag(old(db.Subtree(PortfolioItems))) + multiset(if ok then [Written(draft, now)] else [])
    ensures Extends(db.Subtree(PortfolioItems), old(db.Subtree(PortfolioItems)))
    ensures old(db.Valid()) ==> db.Valid()
  {
    ghost var before := db.Subtree(PortfolioItems);
    var r := SavePortfolioItem(db, draft, now, clientNow, ok);
    saved := r.Success?;
    if saved {
      BagAdd(before, IdOf(r.value), Written(draft, now));
    }
  }

  /**
   * `initializeSampleData`: the two samples through create; a failed write is logged and
   * swallowed.
   */
  method InitializeSampleData(db: Database, now: int, clientNow: int, seedOk: nat -> bool)
    modifies db`tree
    ensures db.tree == old(db.tree).With(PortfolioItems, db.Subtree(PortfolioItems))
    ensures Bag(db.Subtree(PortfolioItems)) == Bag(old(db.Subtree(PortfolioItems))) + multiset(WrittenAll(SampleData, seedOk, now))
    ensures old(db.Valid()) ==> db.Valid()
  {
    SampleFacts();
    var _ := SaveAll(db, SampleData, now, clientNow, seedOk);
  }

  /**
   * `getPortfolioItems`. A present subtree is listed without any write. An absent one is
   * seeded with the samples and then listed once more without seeding again (the source
   * calls itself instead, see the as-written model below). A failed read fails the call.
   */
  method GetPortfolioItems(db: Database, readOk: bool, seedOk: nat -> bool, rereadOk: bool, now: int, clientNow: int)
    returns (r: Result<seq<Record>>)
    modifies db`tree
    ensures !readOk ==> r == Failure(FetchFailed) && db.tree == old(db.tree)
    ensures readOk && old(db.Subtree(PortfolioItems)) != map[] ==>
      db.tree == old(db.tree) && r.Success? && IsListing(r.value, db.Subtree(PortfolioItems))
    ensures readOk && old(db.Subtree(PortfolioItems)) == map[] ==>
      && db.tree == old(db.tree).With(PortfolioItems, db.Subtree(PortfolioItems))
      && Bag(db.Subtree(PortfolioItems)) == multiset(WrittenAll(SampleData, seedOk, now))
      && (seedOk(0) || seedOk(1) <==> db.Subtree(PortfolioItems) != map[])
      && (rereadOk ==> r.Success? && IsListing(r.value, db.Subtree(PortfolioItems)))
      && (!rereadOk ==> r == Failure(FetchFailed))
    ensures old(db.Valid()) ==> db.Valid()
  {
    var snapshot := db.Get(PortfolioItems, readOk);
    if snapshot.ReadFailed? {
      return Failure(FetchFailed);
    }
    var data := snapshot.value;
    if data == map[] {
      InitializeSampleData(db, now, clientNow, seedOk);
      SeedWrites(seedOk, now);
      BagSize(db.Subtree(PortfolioItems));
      var again := db.Get(PortfolioItems, rereadOk);
      if again.ReadFailed? {
        return Failure(FetchFailed);
      }
      data := again.value;
    }
    var items := Materialise(data);
    r := Success(items);
  }

  /**
   * The subtree one seeding round leaves behind when it starts from an absent subtree and
   * write `i` of round `round` succeeds exactly if `seedOk(round)(i)`. The keys stand for the
   * generated ones.
   */
  function SeededRound(seedOk: nat -> nat -> bool, round: nat, now: int): (data: map<string, Fields>)
    ensures data != map[] <==> seedOk(round)(0) || seedOk(round)(1)
  {
    var first := if seedOk(round)(0) then map["sample-0" := Written(SampleData[0], now)] else map[];
    var both := if seedOk(round)(1) then first["sample-1" := Written(SampleData[1], now)] else first;
    assert seedOk(round)(0) ==> "sample-0" in both;
    assert seedOk(round)(1) ==> "sample-1" in both;
    both
  }

  /**
   * `getPortfolioItems` as written: an absent subtree is seeded and the whole function
   * called again, with a fresh read and, when the data is still absent, a fresh round of
   * seeding. The result is the subtree that gets listed, or the failure; `None` means that
   * `fuel` calls were not enough to finish.
   */
  function ListAsWritten(fuel: nat, data: map<string, Fields>, round: nat, readOk: nat -> bool,
                         seedOk: nat -> nat -> bool, now: int): Option<Result<map<string, Fields>>>
    decreases fuel
  {
    if fuel == 0 then None
    else if !readOk(round) then Some(Failure(FetchFailed))
    else if data != map[] then Some(Success(data))
    else ListAsWritten(fuel - 1, SeededRound(seedOk, round, now), round + 1, readOk, seedOk, now)
  }

  /**
   * When the store answers every read but refuses every sample write, the as-written list
   * never finishes: no number of calls is enough, because `initializeSampleData` swallows the
   * write errors and the subtree stays absent.
   */
  lemma {:induction false} ListAsWrittenDiverges(fuel: nat, round: nat, readOk: nat -> bool,
                                                 seedOk: nat -> nat -> bool, now: int)
    requires forall k: nat :: readOk(k)
    requires forall k: nat, i: nat :: !seedOk(k)(i)
    ensures ListAsWritten(fuel, map[], round, readOk, seedOk, now) == None
    decreases fuel
  {
    if fuel > 0 {
      assert SeededRound(seedOk, round, now) == map[];
      ListAsWrittenDiverges(fuel - 1, round + 1, readOk, seedOk, now);
    }
  }

  /**
   * Where the as-written list does finish after seeding once, it lists the same subtree as
   * the seed-once model: the samples whose writes succeeded.
   */
  lemma ListAsWrittenAgrees(round: nat, readOk: nat -> bool, seedOk: nat -> nat -> bool, now: int)
    requires readOk(round) && readOk(round + 1)
    requires seedOk(round)(0) || seedOk(round)(1)
    ensures ListAsWritten(2, map[], round, readOk, seedOk, now).Some?
    ensures var r := ListAsWritten(2, map[], round, readOk, seedOk, now).value;
      r.Success? && Bag(r.value) == multiset(WrittenAll(SampleData, seedOk(round), now))
  {
    var data := SeededRound(seedOk, round, now);
    SeedWrites(seedOk(round), now);
    var first := if seedOk(round)(0) then map["sample-0" := Written(SampleData[0], now)] else map[];
    if seedOk(round)(0) {
      BagAdd(map[], "sample-0", Written(SampleData[0], now));
    }
    if seedOk(round)(1) {
      BagAdd(first, "sample-1", Written(SampleData[1], now));
    }
  }

  /**
   * Deleting the last project empties the subtree, which the next list treats as absent: the
   * samples are written again.
   */
  method DeleteLastThenList(db: Database, id: string, seedOk: nat -> bool, now: int, clientNow: int)
    returns (r: Result<seq<Record>>)
    requires db.Valid() && db.Subtree(PortfolioItems).Keys == {id}
    modifies db`tree
    ensures Bag(db.Subtree(PortfolioItems)) == multiset(WrittenAll(SampleData, seedOk, now))
    ensures r.Success? && IsListing(r.value, db.Subtree(PortfolioItems))
  {
    assert id in db.Subtree(PortfolioItems) && IsKey(id);
    var _ := DeletePortfolioItem(db, id, true);
    assert db.Subtree(PortfolioItems) == map[];
    r := GetPortfolioItems(db, true, seedOk, true, now, clientNow);
  }

  /** `subscribeToPortfolioItems`: one read handed to the callback; a failed read never calls it. */
  method SubscribeToPortfolioItems(db: Database, readOk: bool) returns (delivered: Option<seq<Record>>)
    ensures readOk <==> delivered.Some?
    ensures readOk ==> IsListing(delivered.value, db.Subtree(PortfolioItems))
  {
    var snapshot := db.Get(PortfolioItems, readOk);
    if snapshot.ReadFailed? {
      return None;
    }
    var items := Materialise(snapshot.value);
    delivered := Some(items);
  }

  /**
   * The local items as migration re-creates them, in order: each without its `id` and
   * `createdAt`, and with every other field of the item as it was.
   */
  function Stripped(items: seq<Fields>): (drafts: seq<Fields>)
    ensures |drafts| == |items|
    ensures forall i :: 0 <= i < |items| ==> IsDraft(drafts[i])
    ensures forall i, f :: 0 <= i < |items| && f != "id" && f != "createdAt" ==>
      (f in drafts[i] <==> f in items[i]) && (f in drafts[i] ==> drafts[i][f] == items[i][f])
    ensures forall i :: 0 <= i < |items| ==> drafts[i] == Strip(items[i])
  {
    seq(|items|, i requires 0 <= i < |items| => Strip(items[i]))
  }

  /** What a migration run does to the remote collection and to the local entry. */
  datatype Plan = Skip | Copy(written: seq<Fields>, clearLocal: bool)

  /**
   * The decision `migrateFromLocalStorage` takes: nothing without a usable local entry, on a
   * failed read or when the remote collection has data; otherwise copy every local item and
   * remove the local entry exactly when every create succeeded.
   */
  function MigrationPlan(remote: map<string, Fields>, legacy: Option<Browser.LegacyEntry>, readOk: bool,
                         outcome: nat -> bool, now: int): Plan
  {
    match legacy
    case None => Skip
    case Some(entry) =>
      match entry
      case Unreadable => Skip
      case Parsed(items) =>
        if !readOk || remote != map[] then Skip
        else Copy(WrittenAll(Stripped(items), outcome, now), AllSucceed(|items|, outcome))
  }

  /** `migrateFromLocalStorage`; every failure is logged and swallowed. */
  method MigrateFromLocalStorage(db: Database, browser: Browser.Storage, readOk: bool, outcome: nat -> bool,
                                 now: int, clientNow: int)
    modifies db`tree, browser`portfolioItems
    ensures var plan := MigrationPlan(old(db.Subtree(PortfolioItems)), old(browser.portfolioItems), readOk, outcome, now);
      && (plan.Skip? ==> db.tree == old(db.tree) && browser.portfolioItems == old(browser.portfolioItems))
      && (plan.Copy? ==>
           && db.tree == old(db.tree).With(PortfolioItems, db.Subtree(PortfolioItems))
           && Bag(db.Subtree(PortfolioItems)) == multiset(plan.written)
           && browser.portfolioItems == if plan.clearLocal then None else old(browser.portfolioItems))
    ensures old(db.Valid()) ==> db.Valid()
  {
    var stored := browser.portfolioItems;
    if stored.None? || stored.value.Unreadable? {
      return;
    }
    var localItems := stored.value.items;
    var snapshot := db.Get(PortfolioItems, readOk);
    if snapshot.ReadFailed? || snapshot.value != map[] {
      return;
    }
    var allOk := SaveAll(db, Stripped(localItems), now, clientNow, outcome);
    if allOk {
      browser.portfolioItems := None;
    }
  }

  /** The state a plan leaves behind: does a second run with the same outcomes change anything? */
  predicate Inert(p: Plan) {
    p.Skip? || (p.written == [] && !p.clearLocal)
  }

  /**
   * Migration runs at most once. Once a run has written something or removed the local entry,
   * any later run, whatever its own read, write outcomes and time, skips. A second run under
   * the same outcomes writes nothing and keeps the local entry, whatever the first run did.
   */
  lemma MigrationIdempotent(remote: map<string, Fields>, legacy: Option<Browser.LegacyEntry>, readOk: bool,
                            outcome: nat -> bool, now: int, remoteAfter: map<string, Fields>,
                            readOk2: bool, outcome2: nat -> bool, now2: int)
    requires MigrationPlan(remote, legacy, readOk, outcome, now).Copy?
    requires Bag(remoteAfter) == multiset(MigrationPlan(remote, legacy, readOk, outcome, now).written)
    ensures var first := MigrationPlan(remote, legacy, readOk, outcome, now);
      first.clearLocal || first.written != [] ==>
        MigrationPlan(remoteAfter, if first.clearLocal then None else legacy, readOk2, outcome2, now2).Skip?
    ensures var first := MigrationPlan(remote, legacy, readOk, outcome, now);
      Inert(MigrationPlan(remoteAfter, if first.clearLocal then None else legacy, readOk, outcome, now))
  {
    var first := MigrationPlan(remote, legacy, readOk, outcome, now);
    var items := legacy.value.items;
    BagSize(remoteAfter);
    WrittenAllSize(Stripped(items), outcome, now);
    if !first.clearLocal && remoteAfter == map[] {
      assert first.written == [];
    }
  }
}
