/**
 * What the portfolio and work-experience repositories share: how a record is written on
 * create, and how the unordered `key -> fields` subtree becomes the list callers get
 * (each key attached as `id`, a numeric `createdAt` turned into its text form, newest first).
 */
module Collection {
  import opened Json
  import opened Bags
  import Time
  import Store

  /** A listed record: the stored fields plus `id`. */
  type Record = Fields

  /** The argument type `Omit<..., 'id' | 'createdAt'>` of create and update. */
  predicate IsDraft(item: Fields) {
    "id" !in item && "createdAt" !in item
  }

  /** `const { id, createdAt, ...itemData } = item`. */
  function Strip(item: Fields): (r: Fields)
    ensures IsDraft(r)
    ensures forall f :: f != "id" && f != "createdAt" ==> (f in r <==> f in item) && (f in r ==> r[f] == item[f])
  {
    item - {"id", "createdAt"}
  }

  /** What create stores: the draft plus `createdAt: serverTimestamp()`, resolved to `now`. */
  function Written(item: Fields, now: int): Fields
  {
    Store.Prune(item + map["createdAt" := Number(now)])
  }

  /** What create returns: the draft, the new key as `id` and the client clock as text. */
  function Echo(item: Fields, key: string, clientNow: int): Record
  {
    item + map["id" := Text(key), "createdAt" := Text(Time.ToIso(clientNow))]
  }

  /** A stored record never has an `id` field, and always has its creation time. */
  lemma WrittenFields(item: Fields, now: int)
    requires IsDraft(item)
    ensures "id" !in Written(item, now)
    ensures "createdAt" in Written(item, now) && Written(item, now)["createdAt"] == Number(now)
  {
  }

  /** The `id` of a listed or returned record. */
  function IdOf(r: Record): string
  {
    if "id" in r && r["id"].Text? then r["id"].text else ""
  }

  /**
   * The records a batch of creates stores, in order, when write `i` succeeds exactly if
   * `outcome(i)`.
   */
  function WrittenAll(drafts: seq<Fields>, outcome: nat -> bool, now: int): seq<Fields>
  {
    if drafts == [] then []
    else
      var n := |drafts| - 1;
      WrittenAll(drafts[..n], outcome, now) + (if outcome(n) then [Written(drafts[n], now)] else [])
  }

  /** The records of the first `i + 1` writes: those of the first `i`, then write `i`'s. */
  lemma WrittenAllStep(drafts: seq<Fields>, i: nat, outcome: nat -> bool, now: int)
    requires i < |drafts|
    ensures multiset(WrittenAll(drafts[..i + 1], outcome, now)) ==
      multiset(WrittenAll(drafts[..i], outcome, now)) + multiset(if outcome(i) then [Written(drafts[i], now)] else [])
  {
    assert drafts[..i + 1][..i] == drafts[..i];
  }

  /** Every write of the batch succeeds. */
  predicate AllSucceed(count: nat, outcome: nat -> bool) {
    forall i: nat :: i < count ==> outcome(i)
  }

  lemma AllSucceedStep(count: nat, outcome: nat -> bool)
    ensures AllSucceed(count + 1, outcome) <==> AllSucceed(count, outcome) && outcome(count)
  {
    if AllSucceed(count, outcome) && outcome(count) {
      forall i: nat | i < count + 1
        ensures outcome(i)
      {
        if i < count {
        }
      }
    }
  }

  /** One stored record per successful write, none for a failed one. */
  lemma {:induction false} WrittenAllSize(drafts: seq<Fields>, outcome: nat -> bool, now: int)
    ensures |WrittenAll(drafts, outcome, now)| <= |drafts|
    ensures |WrittenAll(drafts, outcome, now)| == 0 <==> forall i: nat :: i < |drafts| ==> !outcome(i)
    ensures AllSucceed(|drafts|, outcome) ==> |WrittenAll(drafts, outcome, now)| == |drafts|
  {
    if drafts != [] {
      var n := |drafts| - 1;
      WrittenAllSize(drafts[..n], outcome, now);
      if forall i: nat :: i < |drafts| ==> !outcome(i) {
        assert forall i: nat :: i < n ==> !outcome(i);
      }
      if AllSucceed(|drafts|, outcome) {
        assert AllSucceed(n, outcome);
      }
    }
  }

  /** `typeof createdAt === 'number' ? new Date(createdAt).toISOString() : createdAt`. */
  function Normalised(v: Value): Value
  {
    if v.Number? then Text(Time.ToIso(v.num)) else v
  }

  /** `{ id: key, ...data[key], createdAt: ... }`. */
  function ToItem(key: string, stored: Fields): Record
  {
    var withId := map["id" := Text(key)] + stored;
    if "createdAt" in stored then withId["createdAt" := Normalised(stored["createdAt"])] else withId
  }

  /** The JS value of a record's `createdAt`, as an instant. */
  function TimeKey(r: Record): int
  {
    if "createdAt" !in r then 0
    else match r["createdAt"]
      case Text(s) => Time.TimeOf(s)
      case Number(n) => n
      case TextList(_) => 0
  }

  /**
   * A listed record carries its key as `id` (unless the stored fields hold an `id` of their
   * own, which wins, as in the spread), every stored field other than `createdAt` unchanged,
   * a stored numeric `createdAt` as text and any other `createdAt` as stored; and it sorts by
   * the instant that was stored.
   */
  lemma ToItemFields(key: string, stored: Fields, f: string)
    ensures ("id" !in stored ==> ToItem(key, stored)["id"] == Text(key))
    ensures f in ToItem(key, stored) <==> f in stored || f == "id"
    ensures f in stored && f != "createdAt" ==> ToItem(key, stored)[f] == stored[f]
    ensures "createdAt" in stored && stored["createdAt"].Number? ==>
      ToItem(key, stored)["createdAt"] == Text(Time.ToIso(stored["createdAt"].num))
    ensures "createdAt" in stored && !stored["createdAt"].Number? ==>
      ToItem(key, stored)["createdAt"] == stored["createdAt"]
    ensures TimeKey(ToItem(key, stored)) == TimeKey(stored)
  {
    if "createdAt" in stored && stored["createdAt"].Number? {
      Time.TimeOfToIso(stored["createdAt"].num);
    }
  }

  /** Non-increasing `createdAt`: the comparator `b.time - a.time`. */
  ghost predicate NewestFirst(items: seq<Record>) {
    forall i, j :: 0 <= i < j < |items| ==> TimeKey(items[i]) >= TimeKey(items[j])
  }

  /** One step of the sort: `r` placed before the first record that is not newer. */
  function Insert(r: Record, sorted: seq<Record>): seq<Record>
  {
    if sorted == [] || TimeKey(r) >= TimeKey(sorted[0]) then [r] + sorted
    else [sorted[0]] + Insert(r, sorted[1..])
  }

  /** Inserting adds exactly `r`. */
  lemma {:induction false} InsertKeeps(r: Record, sorted: seq<Record>)
    ensures multiset(Insert(r, sorted)) == multiset(sorted) + multiset{r}
  {
    if sorted != [] && TimeKey(r) < TimeKey(sorted[0]) {
      var tail := sorted[1..];
      InsertKeeps(r, tail);
      ConsKeeps(sorted[0], Insert(r, tail), tail, r);
      assert sorted == [sorted[0]] + tail;
    }
  }

  /** The result of an insertion starts with `r` or with the old head. */
  lemma InsertHead(r: Record, sorted: seq<Record>)
    ensures Insert(r, sorted) != []
    ensures Insert(r, sorted)[0] == r || (|sorted| > 0 && Insert(r, sorted)[0] == sorted[0])
  {
    if sorted != [] && TimeKey(r) < TimeKey(sorted[0]) {
      assert Insert(r, sorted) == [sorted[0]] + Insert(r, sorted[1..]);
    }
  }

  lemma ConsKeeps(h: Record, rest: seq<Record>, tail: seq<Record>, r: Record)
    requires multiset(rest) == multiset(tail) + multiset{r}
    ensures multiset([h] + rest) == multiset([h] + tail) + multiset{r}
  {
  }

  /** Inserting into a newest-first list keeps it newest first. */
  lemma {:induction false} InsertSorted(r: Record, sorted: seq<Record>)
    requires NewestFirst(sorted)
    ensures NewestFirst(Insert(r, sorted))
  {
    if sorted == [] || TimeKey(r) >= TimeKey(sorted[0]) {
      PrependNewest(r, sorted);
    } else {
      var tail := sorted[1..];
      NewestFirstTail(sorted);
      InsertSorted(r, tail);
      InsertHead(r, tail);
      PrependNewest(sorted[0], Insert(r, tail));
    }
  }

  /** The tail of a newest-first list is newest first and starts no later than its head. */
  lemma NewestFirstTail(s: seq<Record>)
    requires NewestFirst(s) && s != []
    ensures NewestFirst(s[1..])
    ensures |s| > 1 ==> TimeKey(s[0]) >= TimeKey(s[1])
  {
    forall i, j | 0 <= i < j < |s| - 1
      ensures TimeKey(s[1..][i]) >= TimeKey(s[1..][j])
    {
      assert s[1..][i] == s[i + 1] && s[1..][j] == s[j + 1];
    }
  }

  lemma PrependNewest(r: Record, s: seq<Record>)
    requires NewestFirst(s)
    requires s != [] ==> TimeKey(r) >= TimeKey(s[0])
    ensures NewestFirst([r] + s)
  {
    var t := [r] + s;
    forall i, j | 0 <= i < j < |t|
      ensures TimeKey(t[i]) >= TimeKey(t[j])
    {
      if i == 0 {
        assert t[j] == s[j - 1];
        if j > 1 {
          assert TimeKey(s[0]) >= TimeKey(s[j - 1]);
        }
      } else {
        assert t[i] == s[i - 1] && t[j] == s[j - 1];
      }
    }
  }

  /** `items.sort((a, b) => time(b) - time(a))`, as an insertion sort. */
  function SortNewestFirst(items: seq<Record>): seq<Record>
  {
    if items == [] then [] else Insert(items[0], SortNewestFirst(items[1..]))
  }

  /** The sort orders newest first and keeps every record, as often as it occurs. */
  lemma {:induction false} SortNewestFirstSpec(items: seq<Record>)
    ensures NewestFirst(SortNewestFirst(items))
    ensures multiset(SortNewestFirst(items)) == multiset(items)
  {
    if items != [] {
      SortNewestFirstSpec(items[1..]);
      InsertSorted(items[0], SortNewestFirst(items[1..]));
      InsertKeeps(items[0], SortNewestFirst(items[1..]));
      assert items == [items[0]] + items[1..];
    }
  }

  /** Every child of the subtree as a listed record, keyed as in the store. */
  function Tagged(data: map<string, Fields>): map<string, Record>
  {
    map k | k in data :: ToItem(k, data[k])
  }

  /** The records listing must return, one per stored key. */
  ghost function Records(data: map<string, Fields>): multiset<Record>
  {
    Bag(Tagged(data))
  }

  lemma RecordsRemove(data: map<string, Fields>, k: string)
    requires k in data
    ensures Records(data) == multiset{ToItem(k, data[k])} + Records(data - {k})
  {
    BagRemove(Tagged(data), k);
    TaggedRemove(data, k);
  }

  lemma TaggedRemove(data: map<string, Fields>, k: string)
    ensures Tagged(data) - {k} == Tagged(data - {k})
  {
    var l, r := Tagged(data) - {k}, Tagged(data - {k});
    assert l.Keys == r.Keys;
    forall j | j in l
      ensures l[j] == r[j]
    {
    }
  }

  /** What a list call returns for a subtree: its records, newest first. */
  ghost predicate IsListing(items: seq<Record>, data: map<string, Fields>) {
    NewestFirst(items) && multiset(items) == Records(data)
  }

  /** The store never holds an `id` field: it is the key. */
  ghost predicate NoStoredIds(data: map<string, Fields>) {
    forall k :: k in data ==> "id" !in data[k]
  }

  /** The site's own writes never store an `id` field. */
  lemma ValidNoStoredIds(db: Store.Database, p: Store.Path)
    requires db.Valid()
    ensures NoStoredIds(db.Subtree(p))
  {
  }

  /**
   * A listing has one record per stored key, built from that key and its stored fields, and
   * nothing else; when no stored record has an `id` field, the record with a given id is
   * listed exactly once.
   */
  lemma ListingPerKey(items: seq<Record>, data: map<string, Fields>, k: string)
    requires IsListing(items, data)
    ensures |items| == |data|
    ensures k in data ==> ToItem(k, data[k]) in items
    ensures forall i :: 0 <= i < |items| ==> exists j :: j in data && items[i] == ToItem(j, data[j])
    ensures NoStoredIds(data) && k in data ==> multiset(items)[ToItem(k, data[k])] == 1
  {
    var t := Tagged(data);
    BagSize(t);
    assert |t| == |data| by {
      assert t.Keys == data.Keys;
    }
    assert |items| == |multiset(items)|;
    forall i | 0 <= i < |items|
      ensures exists j :: j in data && items[i] == ToItem(j, data[j])
    {
      assert items[i] in multiset(items);
      BagHas(t, items[i]);
      var j :| j in t && t[j] == items[i];
    }
    if k in data {
      BagHas(t, ToItem(k, data[k]));
      assert t[k] == ToItem(k, data[k]);
      assert ToItem(k, data[k]) in multiset(items);
      if NoStoredIds(data) {
        forall j | j in t && j != k
          ensures t[j] != t[k]
        {
          ToItemFields(j, data[j], "id");
          ToItemFields(k, data[k], "id");
        }
        BagOnce(t, k);
      }
    }
  }

  /**
   * The listing loop: `Object.keys(data).forEach(key => items.push(...))`, then the sort.
   * The keys are visited in whatever order the map yields them.
   */
  method Materialise(data: map<string, Fields>) returns (items: seq<Record>)
    ensures IsListing(items, data)
  {
    var pushed: seq<Record> := [];
    var rest := data;
    while rest != map[]
      invariant multiset(pushed) + Records(rest) == Records(data)
      decreases rest.Keys
    {
      var key :| key in rest;
      RecordsRemove(rest, key);
      pushed := pushed + [ToItem(key, rest[key])];
      rest := rest - {key};
    }
    items := SortNewestFirst(pushed);
    SortNewestFirstSpec(pushed);
  }
}
