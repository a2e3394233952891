/**
 * The work-experience repository (`work_experiences`): list, create, patch and delete. It
 * shares the record shape and the listing with the portfolio collection and never seeds.
 */
module Experience {
  import opened Json
  import opened Store
  import opened Collection

  const FetchFailed := "Failed to fetch work experiences"
  const SaveFailed := "Failed to save work experience"
  const UpdateFailed := "Failed to update work experience"
  const DeleteFailed := "Failed to delete work experience"

  /** `getWorkExperiences`: an absent subtree lists as nothing; listing never writes. */
  method GetWorkExperiences(db: Database, ok: bool) returns (r: Result<seq<Record>>)
    ensures !ok ==> r == Failure(FetchFailed)
    ensures ok ==> r.Success? && IsListing(r.value, db.Subtree(WorkExperiences))
    ensures ok && db.Subtree(WorkExperiences) == map[] ==> r == Success([])
  {
    var snapshot := db.Get(WorkExperiences, ok);
    if snapshot.ReadFailed? {
      return Failure(FetchFailed);
    }
    if snapshot.value == map[] {
      return Success([]);
    }
    var items := Materialise(snapshot.value);
    r := Success(items);
  }

  /** `saveWorkExperience`: a fresh key, the draft with the server time, the echo. */
  method SaveWorkExperience(db: Database, item: Fields, now: int, clientNow: int, ok: bool)
    returns (r: Result<Record>)
    requires IsDraft(item)
    modifies db`tree
    ensures ok <==> r.Success?
    ensures !ok ==> r == Failure(SaveFailed) && db.tree == old(db.tree)
    ensures ok ==>
      && IdOf(r.value) !in old(db.Subtree(WorkExperiences)) && IsKey(IdOf(r.value))
      && r.value == Echo(item, IdOf(r.value), clientNow)
      && db.tree == old(db.tree).With(WorkExperiences, old(db.Subtree(WorkExperiences))[IdOf(r.value) := Written(item, now)])
    ensures old(db.Valid()) ==> db.Valid()
  {
    var key := db.Push(WorkExperiences);
    var itemData := item + map["createdAt" := Number(now)];
    assert "createdAt" in Prune(itemData);
    var done := db.Set(WorkExperiences, key, itemData, ok);
    if !done {
      return Failure(SaveFailed);
    }
    r := Success(Echo(item, key, clientNow));
  }

  /**
   * `updateWorkExperience`: a field-level patch at `id`; a missing `id` is created by the store,
   * and an id `ref` refuses fails.
   */
  method UpdateWorkExperience(db: Database, id: string, updates: Fields, ok: bool) returns (r: Result<()>)
    requires IsDraft(updates)
    requires id != "" && '/' !in id
    modifies db`tree
    ensures ok && LegalPath(id) ==> r == Success(())
    ensures ok && LegalPath(id) ==> db.tree == old(db.tree).With(WorkExperiences, UpdateChild(old(db.Subtree(WorkExperiences)), id, updates))
    ensures !(ok && LegalPath(id)) ==> r == Failure(UpdateFailed) && db.tree == old(db.tree)
    ensures old(db.Valid()) ==> db.Valid()
  {
    var done := db.Update(WorkExperiences, id, updates, ok);
    r := if done then Success(()) else Failure(UpdateFailed);
  }

  /**
   * `deleteWorkExperience`: removes `id` and nothing else; a missing `id` is no error, the
   * empty id removes every experience, and an id `ref` refuses fails.
   */
  method DeleteWorkExperience(db: Database, id: string, ok: bool) returns (r: Result<()>)
    requires '/' !in id
    modifies db`tree
    ensures ok && LegalPath(id) ==> r == Success(())
    ensures ok && LegalPath(id) ==> db.tree == old(db.tree).With(WorkExperiences, RemoveChild(old(db.Subtree(WorkExperiences)), id))
    ensures ok && LegalPath(id) && id != "" ==> db.Subtree(WorkExperiences) == old(db.Subtree(WorkExperiences)) - {id}
    ensures ok && id == "" ==> db.Subtree(WorkExperiences) == map[]
    ensures !(ok && LegalPath(id)) ==> r == Failure(DeleteFailed) && db.tree == old(db.tree)
    ensures old(db.Valid()) ==> db.Valid()
  {
    var done := db.Remove(WorkExperiences, id, ok);
    r := if done then Success(()) else Failure(DeleteFailed);
  }

  /**
   * A created experience shows up in the next listing exactly once, with the key it was
   * given, and the portfolio collection is untouched.
   */
  method SaveThenList(db: Database, item: Fields, now: int, clientNow: int)
    returns (saved: Result<Record>, listed: Result<seq<Record>>)
    requires IsDraft(item)
    requires NoStoredIds(db.Subtree(WorkExperiences))
    modifies db`tree
    ensures saved.Success? && listed.Success?
    ensures multiset(listed.value)[ToItem(IdOf(saved.value), Written(item, now))] == 1
    ensures |listed.value| == |old(db.Subtree(WorkExperiences))| + 1
    ensures db.Subtree(PortfolioItems) == old(db.Subtree(PortfolioItems))
  {
    saved := SaveWorkExperience(db, item, now, clientNow, true);
    var key := IdOf(saved.value);
    ghost var before := old(db.Subtree(WorkExperiences));
    var data := db.Subtree(WorkExperiences);
    WrittenFields(item, now);
    assert data == before[key := Written(item, now)];
    assert |data| == |before| + 1;
    listed := GetWorkExperiences(db, true);
    ListingPerKey(listed.value, data, key);
  }
}
