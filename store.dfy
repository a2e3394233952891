/**
 * The remote hierarchical key-value store (Firebase Realtime Database) as the site uses it:
 * two collections of records keyed by generated ids, the `profile` singleton, the visit
 * counter `analytics/total_visitors` and the log `analytics/visit_logs`. The store keeps no
 * empty container: an absent subtree and an empty one are the same, and a list or object
 * with nothing in it is not stored. Every round trip takes an `ok` flag saying whether the
 * store answered (a failure throws in the source).
 */
module Store {
  import opened Json

  /** The two collection subtrees, `portfolio_items` and `work_experiences`. */
  datatype Path = PortfolioItems | WorkExperiences

  /** The two collection subtrees together; an absent subtree is the empty map. */
  datatype Tree = Tree(portfolioItems: map<string, Fields>, workExperiences: map<string, Fields>) {
    function At(p: Path): map<string, Fields>
    {
      match p
      case PortfolioItems => portfolioItems
      case WorkExperiences => workExperiences
    }

    /** The tree with subtree `p` replaced by `m`. */
    function With(p: Path, m: map<string, Fields>): (t: Tree)
      ensures t.At(p) == m
      ensures forall q :: q != p ==> t.At(q) == At(q)
    {
      match p
      case PortfolioItems => this.(portfolioItems := m)
      case WorkExperiences => this.(workExperiences := m)
    }
  }

  function PathName(p: Path): string
  {
    match p
    case PortfolioItems => "portfolio_items"
    case WorkExperiences => "work_experiences"
  }

  /** The value at `profile`. */
  datatype ProfileData = ProfileData(userLogo: Option<string>, bio: Option<string>)

  datatype Location = Location(city: string, region: string, country: string, latitude: int, longitude: int)

  /** One entry under `analytics/visit_logs`; `timestamp` is the server clock at the write. */
  datatype VisitLog = VisitLog(ip: string, location: Location, userAgent: string, timestamp: int, path: string)

  /** A value the store can hold: an empty list is no value at all. */
  predicate Present(v: Value) {
    v != TextList([])
  }

  /** What is kept of a written object: its fields minus the empty lists. */
  function Prune(v: Fields): Fields
  {
    map f | f in v && Present(v[f]) :: v[f]
  }

  /** `set(ref(coll, key), v)`: replaces the child; writing nothing removes it. */
  function SetChild(coll: map<string, Fields>, key: string, v: Fields): map<string, Fields>
  {
    var kept := Prune(v);
    if kept == map[] then coll - {key} else coll[key := kept]
  }

  /** `update(ref(coll, key), patch)`: overwrites the patched fields, creating the child if need be. */
  function UpdateChild(coll: map<string, Fields>, key: string, patch: Fields): map<string, Fields>
  {
    SetChild(coll, key, (if key in coll then coll[key] else map[]) + patch)
  }

  /** `set(ref('profile'), d)`: an object with no field is no value. */
  function StoredProfile(d: ProfileData): Option<ProfileData>
  {
    if d.userLogo.None? && d.bio.None? then None else Some(d)
  }

  /** A write touches only its own key. */
  lemma SetChildOthers(coll: map<string, Fields>, key: string, v: Fields, k: string)
    requires k != key
    ensures k in SetChild(coll, key, v) <==> k in coll
    ensures k in coll ==> SetChild(coll, key, v)[k] == coll[k]
  {
  }

  /**
   * After a write the child holds exactly the written fields that are present; it is absent
   * when there is none.
   */
  lemma SetChildField(coll: map<string, Fields>, key: string, v: Fields, f: string)
    ensures key in SetChild(coll, key, v) <==> exists g :: g in v && Present(v[g])
    ensures key in SetChild(coll, key, v) ==>
      (f in SetChild(coll, key, v)[key] <==> f in v && Present(v[f])) &&
      (f in v && Present(v[f]) ==> SetChild(coll, key, v)[key][f] == v[f])
  {
    var kept := Prune(v);
    if exists g :: g in v && Present(v[g]) {
      var g :| g in v && Present(v[g]);
      assert g in kept;
    }
  }

  /**
   * A patch changes the patched fields (removing those patched with an empty list) and keeps
   * every other field of the child.
   */
  lemma UpdateChildField(coll: map<string, Fields>, key: string, patch: Fields, f: string)
    requires key in coll && Pruned(coll[key])
    ensures key in UpdateChild(coll, key, patch) <==>
      exists g :: (g in patch && Present(patch[g])) || (g in coll[key] && g !in patch)
    ensures key in UpdateChild(coll, key, patch) ==>
      var after := UpdateChild(coll, key, patch)[key];
      && (f in patch ==> (f in after <==> Present(patch[f])) && (Present(patch[f]) ==> after[f] == patch[f]))
      && (f !in patch ==> (f in after <==> f in coll[key]) && (f in coll[key] ==> after[f] == coll[key][f]))
  {
    var merged := coll[key] + patch;
    SetChildField(coll, key, merged, f);
    if exists g :: (g in patch && Present(patch[g])) || (g in coll[key] && g !in patch) {
      var g :| (g in patch && Present(patch[g])) || (g in coll[key] && g !in patch);
      assert g in merged && Present(merged[g]);
    }
    if exists g :: g in merged && Present(merged[g]) {
      var g :| g in merged && Present(merged[g]);
      assert (g in patch && Present(patch[g])) || (g in coll[key] && g !in patch);
    }
  }

  /**
   * A character no database path may hold: `ref` throws on a path containing one of
   * `. # $ [ ]` or a control character (U+0000 to U+001F, and U+007F).
   */
  predicate Forbidden(c: char) {
    c == '.' || c == '#' || c == '$' || c == '[' || c == ']' || c < '\U{20}' || c == '\U{7F}'
  }

  /** A path text `ref` accepts. */
  predicate LegalPath(s: string) {
    forall i :: 0 <= i < |s| ==> !Forbidden(s[i])
  }

  /**
   * An id that names exactly one child of a collection: `ref` splits a path at `/` and drops
   * empty segments, so an empty id names the collection itself and an id with `/` a deeper node.
   */
  predicate IsKey(k: string) {
    k != "" && '/' !in k && LegalPath(k)
  }

  /** A child without empty lists, as every write leaves it. */
  predicate Pruned(v: Fields) {
    forall f :: f in v ==> Present(v[f])
  }

  /**
   * The collections the site's own writes produce: every child sits under a single key, is
   * non-empty, holds no empty list and has no `id` field (the id is the key).
   */
  ghost predicate StoredWell(c: map<string, Fields>) {
    forall k :: k in c ==> IsKey(k) && c[k] != map[] && Pruned(c[k]) && "id" !in c[k]
  }

  /** A write of a child with no `id` field at a single key keeps a collection well stored. */
  lemma SetChildWell(coll: map<string, Fields>, key: string, v: Fields)
    requires StoredWell(coll) && IsKey(key) && "id" !in v
    ensures StoredWell(SetChild(coll, key, v))
  {
  }

  /** `remove(ref(coll, key))`: an empty id addresses the collection itself and removes all of it. */
  function RemoveChild(coll: map<string, Fields>, key: string): map<string, Fields>
  {
    if key == "" then map[] else coll - {key}
  }

  /**
   * A stand-in for the id `push()` generates, not its text: only freshness and being a
   * single-segment key are kept. It is a run of `-` longer than every key in use.
   */
  method FreshKey(used: set<string>) returns (key: string)
    ensures key !in used && IsKey(key)
  {
    var longest: nat := 0;
    var rest := used;
    while rest != {}
      invariant rest <= used
      invariant forall s :: s in used && s !in rest ==> |s| <= longest
      decreases rest
    {
      var s :| s in rest;
      if |s| > longest {
        longest := |s|;
      }
      rest := rest - {s};
    }
    key := seq(longest + 1, _ => '-');
    assert key[0] == '-';
  }

  /** The outcome of a read: the store did not answer, or the value found (absent reads as empty). */
  datatype Read<+T> = ReadFailed | Snapshot(value: T)

  class Database {
    var tree: Tree
    var profile: Option<ProfileData>
    var totalVisitors: Option<nat>
    var visitLogs: map<string, VisitLog>

    constructor ()
      ensures tree == Tree(map[], map[]) && profile == None && totalVisitors == None && visitLogs == map[]
      ensures Valid()
    {
      tree, profile, totalVisitors, visitLogs := Tree(map[], map[]), None, None, map[];
    }

    /** Both collections are well stored. */
    ghost predicate Valid()
      reads this
    {
      forall p: Path :: StoredWell(tree.At(p))
    }

    /** The children of a collection; an absent subtree has none. */
    function Subtree(p: Path): map<string, Fields>
      reads this
    {
      tree.At(p)
    }

    /** `get(ref(db, p))`. */
    method Get(p: Path, ok: bool) returns (r: Read<map<string, Fields>>)
      ensures ok ==> r == Snapshot(Subtree(p))
      ensures !ok ==> r == ReadFailed
    {
      r := if ok then Snapshot(Subtree(p)) else ReadFailed;
    }

    /** `push(ref(db, p)).key`: computed locally, never fails, fresh in the collection. */
    method Push(p: Path) returns (key: string)
      ensures key !in Subtree(p) && IsKey(key)
    {
      key := FreshKey(Subtree(p).Keys);
    }

    /** `set(ref(db, p + '/' + key), v)`. */
    method Set(p: Path, key: string, v: Fields, ok: bool) returns (done: bool)
      modifies this`tree
      ensures done == ok
      ensures tree == if ok then old(tree).With(p, SetChild(old(Subtree(p)), key, v)) else old(tree)
      ensures old(Valid()) && IsKey(key) && "id" !in v ==> Valid()
    {
      if ok {
        if Valid() && IsKey(key) && "id" !in v {
          SetChildWell(Subtree(p), key, v);
        }
        tree := tree.With(p, SetChild(Subtree(p), key, v));
      }
      done := ok;
    }

    /**
     * `update(ref(db, p + '/' + key), patch)`, for a key naming one child: `ref` throws on a
     * forbidden character, so such a key fails whether or not the store answers.
     */
    method Update(p: Path, key: string, patch: Fields, ok: bool) returns (done: bool)
      requires key != "" && '/' !in key
      modifies this`tree
      ensures done == (ok && LegalPath(key))
      ensures tree == if done then old(tree).With(p, UpdateChild(old(Subtree(p)), key, patch)) else old(tree)
      ensures old(Valid()) && "id" !in patch ==> Valid()
    {
      done := ok && LegalPath(key);
      if done {
        if Valid() && "id" !in patch {
          var coll := Subtree(p);
          assert "id" !in (if key in coll then coll[key] else map[]) + patch;
          SetChildWell(coll, key, (if key in coll then coll[key] else map[]) + patch);
        }
        tree := tree.With(p, UpdateChild(Subtree(p), key, patch));
      }
    }

    /**
     * `remove(ref(db, p + '/' + key))` for a key without `/`: removing a missing key changes
     * nothing, the empty key removes the whole collection, a forbidden character throws.
     */
    method Remove(p: Path, key: string, ok: bool) returns (done: bool)
      requires '/' !in key
      modifies this`tree
      ensures done == (ok && LegalPath(key))
      ensures tree == if done then old(tree).With(p, RemoveChild(old(Subtree(p)), key)) else old(tree)
      ensures old(Valid()) ==> Valid()
    {
      done := ok && LegalPath(key);
      if done {
        tree := tree.With(p, RemoveChild(Subtree(p), key));
      }
    }

    /** `get(child(ref(db), 'profile'))`. */
    method GetProfile(ok: bool) returns (r: Read<Option<ProfileData>>)
      ensures ok ==> r == Snapshot(profile)
      ensures !ok ==> r == ReadFailed
    {
      r := if ok then Snapshot(profile) else ReadFailed;
    }

    /** `set(ref(db, 'profile'), d)`: the whole value is replaced. */
    method SetProfile(d: ProfileData, ok: bool) returns (done: bool)
      modifies this`profile
      ensures done == ok
      ensures profile == if ok then StoredProfile(d) else old(profile)
    {
      if ok {
        profile := StoredProfile(d);
      }
      done := ok;
    }

    /**
     * `runTransaction(ref(db, 'analytics/total_visitors'), f)`: one atomic step applying `f`
     * to the current value (the store's retries on conflict are not modelled).
     */
    method RunTransaction(f: Option<nat> -> nat, ok: bool) returns (done: bool)
      modifies this`totalVisitors
      ensures done == ok
      ensures totalVisitors == if ok then Some(f(old(totalVisitors))) else old(totalVisitors)
    {
      if ok {
        totalVisitors := Some(f(totalVisitors));
      }
      done := ok;
    }

    /** `push(ref(db, 'analytics/visit_logs')).key`. */
    method PushLog() returns (key: string)
      ensures key !in visitLogs && IsKey(key)
    {
      key := FreshKey(visitLogs.Keys);
    }

    /** `set(ref(db, 'analytics/visit_logs/' + key), log)`. */
    method SetLog(key: string, log: VisitLog, ok: bool) returns (done: bool)
      modifies this`visitLogs
      ensures done == ok
      ensures visitLogs == if ok then old(visitLogs)[key := log] else old(visitLogs)
    {
      if ok {
        visitLogs := visitLogs[key := log];
      }
      done := ok;
    }
  }
}
