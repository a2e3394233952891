/**
 * The visit recorder: once per browser session it looks the visitor up, adds one to
 * `analytics/total_visitors` and appends one entry to `analytics/visit_logs`.
 */
module Analytics {
  import opened Json
  import opened Bags
  import opened Store
  import Browser

  /** The fields of the geolocation answer the recorder reads; any of them may be missing. */
  datatype VisitorData = VisitorData(ip: Option<string>, city: Option<string>, region: Option<string>,
                                     countryName: Option<string>, latitude: Option<int>, longitude: Option<int>)

  /** The geolocation request: it threw, it answered with an error status, or it gave data. */
  datatype Lookup = LookupFailed | NotOk | Fetched(data: VisitorData)

  /** `s || 'unknown'`: a missing or empty text defaults. */
  function OrUnknown(s: Option<string>): (r: string)
    ensures r != ""
    ensures s.Some? && s.value != "" ==> r == s.value
    ensures s.None? || s.value == "" ==> r == "unknown"
  {
    if s.None? || s.value == "" then "unknown" else s.value
  }

  /** `logged` is what `given || 'unknown'` gives: the given text when it is non-empty, else `'unknown'`. */
  predicate Defaulted(given: Option<string>, logged: string) {
    && (given.Some? && given.value != "" ==> logged == given.value)
    && (given.None? || given.value == "" ==> logged == "unknown")
  }

  /** `n || 0` (a zero coordinate is zero either way). */
  function OrZero(n: Option<int>): (r: int)
    ensures n.Some? ==> r == n.value
    ensures n.None? ==> r == 0
  {
    if n.None? then 0 else n.value
  }

  /**
   * The entry written for a visit. Every text is non-empty; a text the answer gives is
   * kept and a missing or empty one is `'unknown'`, `country` comes from `country_name`,
   * a given coordinate is kept and a missing one is 0.
   */
  function LogEntry(data: VisitorData, userAgent: string, path: string, now: int): (e: VisitLog)
    ensures e.ip != "" && e.location.city != "" && e.location.region != "" && e.location.country != ""
    ensures Defaulted(data.ip, e.ip) && Defaulted(data.city, e.location.city)
    ensures Defaulted(data.region, e.location.region) && Defaulted(data.countryName, e.location.country)
    ensures data.latitude.Some? ==> e.location.latitude == data.latitude.value
    ensures data.longitude.Some? ==> e.location.longitude == data.longitude.value
    ensures data.latitude.None? ==> e.location.latitude == 0
    ensures data.longitude.None? ==> e.location.longitude == 0
    ensures e.userAgent == userAgent && e.path == path && e.timestamp == now
  {
    VisitLog(OrUnknown(data.ip),
             Location(OrUnknown(data.city), OrUnknown(data.region), OrUnknown(data.countryName),
                      OrZero(data.latitude), OrZero(data.longitude)),
             userAgent, now, path)
  }

  /** An answer with nothing in it logs `'unknown'` everywhere and the origin as position. */
  lemma EmptyAnswer(userAgent: string, path: string, now: int)
    ensures var e := LogEntry(VisitorData(None, None, None, None, None, None), userAgent, path, now);
      e.ip == "unknown" && e.location == Location("unknown", "unknown", "unknown", 0, 0)
  {
  }

  /** `currentCount || 0`. */
  function Count(c: Option<nat>): nat
  {
    if c.None? then 0 else c.value
  }

  /** The transaction's update function `(currentCount || 0) + 1`. */
  function Increment(c: Option<nat>): (n: nat)
    ensures n >= 1
    ensures c.Some? ==> n == c.value + 1
    ensures c.None? ==> n == 1
  {
    Count(c) + 1
  }

  /**
   * Everything one call depends on from outside: the geolocation result, whether the counter
   * transaction and the log write succeed, the browser's user agent and path, the server clock.
   */
  datatype Attempt = Attempt(lookup: Lookup, counterOk: bool, logOk: bool, userAgent: string, path: string, now: int)

  /** A call that gets through to the end. */
  predicate Succeeds(a: Attempt) {
    a.lookup.Fetched? && a.counterOk && a.logOk
  }

  /** What the recorder can see and change: the counter, the log entries and the session flag. */
  datatype VisitState = VisitState(counter: Option<nat>, logs: multiset<VisitLog>, recorded: bool)

  /**
   * One `recordVisit` call. A recorded session, a failed or unsuccessful lookup and a failed
   * transaction change nothing; a failed log write keeps the increment but neither logs nor
   * sets the flag; otherwise the increment, one entry and the flag.
   */
  function Visit(s: VisitState, a: Attempt): VisitState
  {
    if s.recorded || !a.lookup.Fetched? || !a.counterOk then s
    else
      var counted := s.(counter := Some(Increment(s.counter)));
      if !a.logOk then counted
      else counted.(logs := s.logs + multiset{LogEntry(a.lookup.data, a.userAgent, a.path, a.now)}, recorded := true)
  }

  /**
   * A call changes something exactly when the session is not yet recorded, the lookup
   * answered and the counter moved; it sets the flag exactly when it succeeds, and it adds
   * at most one entry.
   */
  lemma VisitEffect(s: VisitState, a: Attempt)
    ensures Visit(s, a) != s <==> !s.recorded && a.lookup.Fetched? && a.counterOk
    ensures Visit(s, a).recorded <==> s.recorded || Succeeds(a)
    ensures Visit(s, a).logs == s.logs || (Succeeds(a) && |Visit(s, a).logs| == |s.logs| + 1)
    ensures Visit(s, a).counter == s.counter || Visit(s, a).counter == Some(Count(s.counter) + 1)
  {
  }

  /** Calls in one session, in order. */
  function VisitAll(s: VisitState, attempts: seq<Attempt>): VisitState
    decreases attempts
  {
    if attempts == [] then s else VisitAll(Visit(s, attempts[0]), attempts[1..])
  }

  /** Once the flag is set, no call changes anything. */
  lemma {:induction false} RecordedStays(s: VisitState, attempts: seq<Attempt>)
    requires s.recorded
    ensures VisitAll(s, attempts) == s
    decreases attempts
  {
    if attempts != [] {
      RecordedStays(Visit(s, attempts[0]), attempts[1..]);
    }
  }

  /**
   * However many calls a session makes, the first successful one counts and logs the visit
   * once and every later one is ignored.
   */
  lemma OncePerSession(s: VisitState, attempts: seq<Attempt>)
    requires !s.recorded && attempts != [] && Succeeds(attempts[0])
    ensures VisitAll(s, attempts) ==
      VisitState(Some(Count(s.counter) + 1),
                 s.logs + multiset{LogEntry(attempts[0].lookup.data, attempts[0].userAgent, attempts[0].path, attempts[0].now)},
                 true)
  {
    RecordedStays(Visit(s, attempts[0]), attempts[1..]);
  }

  /**
   * Since the flag is only set after the log write, every call whose counter transaction
   * succeeds but whose log write fails counts the visit again: `n` such calls raise the
   * counter by `n` and log nothing.
   */
  lemma {:induction false} CounterDrift(s: VisitState, attempts: seq<Attempt>)
    requires !s.recorded
    requires forall i :: 0 <= i < |attempts| ==> attempts[i].lookup.Fetched? && attempts[i].counterOk && !attempts[i].logOk
    ensures VisitAll(s, attempts).logs == s.logs && !VisitAll(s, attempts).recorded
    ensures attempts != [] ==> VisitAll(s, attempts).counter == Some(Count(s.counter) + |attempts|)
    decreases attempts
  {
    if attempts != [] {
      var next := Visit(s, attempts[0]);
      CounterDrift(next, attempts[1..]);
    }
  }

  /** The recorder's view of the store and the session. */
  ghost function View(db: Database, browser: Browser.Storage): VisitState
    reads db, browser
  {
    VisitState(db.totalVisitors, Bag(db.visitLogs), browser.visitRecorded)
  }

  /**
   * `recordVisit`. The session guard, the lookup, the counter transaction, the push of a
   * fresh log key and the write of the entry, and the flag; any failure ends the call
   * quietly with what was already written kept.
   */
  method RecordVisit(db: Database, browser: Browser.Storage, a: Attempt)
    modifies db`totalVisitors, db`visitLogs, browser`visitRecorded
    ensures View(db, browser) == Visit(old(View(db, browser)), a)
    ensures Succeeds(a) && !old(browser.visitRecorded) ==>
      exists key :: key !in old(db.visitLogs) &&
        db.visitLogs == old(db.visitLogs)[key := LogEntry(a.lookup.data, a.userAgent, a.path, a.now)]
    ensures !(Succeeds(a) && !old(browser.visitRecorded)) ==> db.visitLogs == old(db.visitLogs)
  {
    if browser.visitRecorded {
      return;
    }
    if !a.lookup.Fetched? {
      return;
    }
    var visitLog := LogEntry(a.lookup.data, a.userAgent, a.path, a.now);
    var counted := db.RunTransaction(Increment, a.counterOk);
    if !counted {
      return;
    }
    var key := db.PushLog();
    ghost var before := db.visitLogs;
    var logged := db.SetLog(key, visitLog, a.logOk);
    if !logged {
      return;
    }
    BagAdd(before, key, visitLog);
    browser.visitRecorded := true;
  }
}
