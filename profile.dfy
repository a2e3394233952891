/** The site owner's `profile` singleton: the logo URL and the biography. */
module Profile {
  import opened Json
  import opened Store

  const SaveFailed := "Failed to save profile data"

  /**
   * `getProfileData`: the stored value, or nothing when there is none; a failed read is
   * reported as nothing too, never as an error.
   */
  method GetProfileData(db: Database, ok: bool) returns (r: Option<ProfileData>)
    ensures ok ==> r == db.profile
    ensures !ok ==> r == None
    ensures ProfileValid(db) && r.Some? ==> r.value.userLogo.Some? || r.value.bio.Some?
  {
    var snapshot := db.GetProfile(ok);
    if snapshot.ReadFailed? {
      return None;
    }
    r := snapshot.value;
  }

  /** The store holds no profile object without a field. */
  ghost predicate ProfileValid(db: Database)
    reads db
  {
    db.profile.Some? ==> db.profile.value.userLogo.Some? || db.profile.value.bio.Some?
  }

  /** `saveProfileData`: the whole value is replaced; fields left out are dropped. */
  method SaveProfileData(db: Database, data: ProfileData, ok: bool) returns (r: Result<()>)
    requires ProfileValid(db)
    modifies db`profile
    ensures ProfileValid(db)
    ensures ok ==> r == Success(()) && db.profile == StoredProfile(data)
    ensures !ok ==> r == Failure(SaveFailed) && db.profile == old(db.profile)
  {
    var done := db.SetProfile(data, ok);
    r := if done then Success(()) else Failure(SaveFailed);
  }

  /**
   * What is saved is what is read back, except that a value with neither field reads back
   * as no profile at all.
   */
  method SaveThenGet(db: Database, data: ProfileData) returns (read: Option<ProfileData>)
    requires ProfileValid(db)
    modifies db`profile
    ensures data.userLogo.Some? || data.bio.Some? ==> read == Some(data)
    ensures data.userLogo.None? && data.bio.None? ==> read == None
  {
    var _ := SaveProfileData(db, data, true);
    read := GetProfileData(db, true);
  }
}
