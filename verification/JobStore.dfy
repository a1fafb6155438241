/** The in-memory table of job results and its eviction: internal/exec/jobs.go. Times are nanoseconds. */
module JobStore {
  import opened JobEvents
  import opened Wrappers

  /** Go's time.Second. */
  const SECOND := 1_000_000_000
  const JOB_TTL := 300 * SECOND

  datatype JobRecord = JobRecord(result: JobResult, storedAt: int)

  type Table = map<string, JobRecord>

  const ACCEPTED_RESULT := JobResult(Accepted, 0, "", "", "")

  /** Expired records go; a record stored exactly JOB_TTL ago stays. */
  function Unexpired(jobs: Table, now: int): Table {
    map id | id in jobs && jobs[id].storedAt >= now - JOB_TTL :: jobs[id]
  }

  class Store {
    var jobs: Table

    constructor ()
      ensures jobs == map[]
    {
      jobs := map[];
    }

    /** `id` is a fresh UUID. */
    method NewJob(id: string, now: int)
      modifies this
      ensures jobs == old(jobs)[id := JobRecord(JobResult(Accepted, 0, "", "", ""), now)]
    {
      jobs := jobs[id := JobRecord(ACCEPTED_RESULT, now)];
    }

    /** A result is kept even when its job has been evicted. */
    method StoreResult(id: string, result: JobResult, now: int)
      modifies this
      ensures jobs == old(jobs)[id := JobRecord(result, now)]
    {
      jobs := jobs[id := JobRecord(result, now)];
    }

    method GetResult(id: string) returns (result: Option<JobResult>)
      ensures result == Found(jobs, id)
    {
      if id !in jobs { return None; }
      return Some(jobs[id].result);
    }

    /** Deleting while walking the map in any order leaves exactly the unexpired records. */
    method Evict(now: int)
      modifies this
      ensures jobs == Unexpired(old(jobs), now)
    {
      var cutoff := now - JOB_TTL;
      var left := jobs.Keys;
      while left != {}
        invariant left <= jobs.Keys <= old(jobs).Keys
        invariant forall id :: id in jobs ==> jobs[id] == old(jobs)[id]
        invariant forall id :: id in old(jobs) && id !in left ==> (id in jobs <==> old(jobs)[id].storedAt >= cutoff)
        decreases |left|
      {
        var id :| id in left;
        left := left - {id};
        if jobs[id].storedAt < cutoff {
          jobs := jobs - {id};
        }
      }
    }
  }

  function Found(jobs: Table, id: string): Option<JobResult> {
    if id in jobs then Some(jobs[id].result) else None
  }

  // ---------------------------------------------------------------- runs

  /** What changes the table: a record put under an id (accepted or finished), or a pass of the evictor. */
  datatype Event = Put(at: int, id: string, result: JobResult) | Pass(at: int)

  function Step(jobs: Table, e: Event): Table {
    match e
    case Put(at, id, result) => jobs[id := JobRecord(result, at)]
    case Pass(at) => Unexpired(jobs, at)
  }

  function After(events: seq<Event>): Table {
    if events == [] then map[] else Step(After(events[..|events| - 1]), events[|events| - 1])
  }

  /** The clock does not run backwards. */
  ghost predicate InTime(events: seq<Event>) {
    forall i, j :: 0 <= i < j < |events| ==> events[i].at <= events[j].at
  }

  /** Event p is the last to put something under the id. */
  ghost predicate LastPut(events: seq<Event>, id: string, p: int) {
    && 0 <= p < |events| && events[p].Put? && events[p].id == id
    && forall i :: p < i < |events| ==> !(events[i].Put? && events[i].id == id)
  }

  /** A pass late enough to expire what event p stored. */
  ghost predicate ExpiresIt(events: seq<Event>, p: int, i: int) {
    0 <= p < i < |events| && events[i].Pass? && events[i].at > events[p].at + 300_000_000_000
  }

  /**
   Exactly when a job is found, over any run: a lookup gives the last thing stored under the id, unless
   a pass more than five minutes later has removed it.
   */
  lemma {:induction false} FoundIff(events: seq<Event>, id: string, p: int)
    requires LastPut(events, id, p)
    ensures id in After(events) <==> forall i :: !ExpiresIt(events, p, i)
    ensures id in After(events) ==> After(events)[id] == JobRecord(events[p].result, events[p].at)
    decreases |events|
  {
    var m := |events| - 1;
    var rest := events[..m];
    if p < m {
      assert LastPut(rest, id, p);
      FoundIff(rest, id, p);
      assert forall i :: ExpiresIt(rest, p, i) ==> ExpiresIt(events, p, i);
      assert forall i :: ExpiresIt(events, p, i) && i < m ==> ExpiresIt(rest, p, i);
      assert ExpiresIt(events, p, m) <==> events[m].Pass? && events[m].at > events[p].at + 300_000_000_000;
    }
  }

  lemma {:induction false} NeverPutNeverFound(events: seq<Event>, id: string)
    requires forall i :: 0 <= i < |events| ==> !(events[i].Put? && events[i].id == id)
    ensures id !in After(events)
    decreases |events|
  {
    if events != [] {
      NeverPutNeverFound(events[..|events| - 1], id);
    }
  }

  lemma {:induction false} LastPutExists(events: seq<Event>, id: string) returns (p: int)
    ensures p == -1 ==> forall i :: 0 <= i < |events| ==> !(events[i].Put? && events[i].id == id)
    ensures p != -1 ==> LastPut(events, id, p)
    decreases |events|
  {
    p := -1;
    if events != [] {
      var m := |events| - 1;
      p := LastPutExists(events[..m], id);
      if events[m].Put? && events[m].id == id { p := m; }
    }
  }

  /**
   The same of any id, stored or not: it is found exactly if something stored under it last was not expired by
   a later pass.
   */
  lemma FoundExactly(events: seq<Event>, id: string)
    ensures id in After(events) <==> exists p :: LastPut(events, id, p) && forall i :: !ExpiresIt(events, p, i)
  {
    var p := LastPutExists(events, id);
    if p == -1 {
      NeverPutNeverFound(events, id);
    } else {
      FoundIff(events, id, p);
      assert forall q :: LastPut(events, id, q) ==> q == p;
    }
  }

  /** Found at every moment up to five minutes after it was stored, however often the evictor ran. */
  lemma FoundWithinTTL(events: seq<Event>, id: string, p: int)
    requires LastPut(events, id, p)
    requires forall i :: p < i < |events| ==> events[i].at <= events[p].at + 300_000_000_000
    ensures Found(After(events), id) == Some(events[p].result)
  {
    FoundIff(events, id, p);
  }

  /** The evictor has passed in every thirty seconds up to now. */
  ghost predicate PassesRegularly(events: seq<Event>, now: int) {
    forall t: int :: (events != [] && events[0].at <= t && t + 30_000_000_000 <= now) ==> PassedWithin(events, t)
  }

  ghost predicate PassedWithin(events: seq<Event>, t: int) {
    exists i :: 0 <= i < |events| && events[i].Pass? && t < events[i].at <= t + 30_000_000_000
  }

  /** Gone five and a half minutes after it was stored, if the evictor kept to its thirty seconds. */
  lemma GoneAfterTTL(events: seq<Event>, id: string, p: int, now: int)
    requires InTime(events) && LastPut(events, id, p) && PassesRegularly(events, now)
    requires now >= events[p].at + 330_000_000_000
    ensures Found(After(events), id).None?
  {
    var t := events[p].at + 300_000_000_000;
    assert events[0].at <= events[p].at;
    assert PassedWithin(events, t);
    var i :| 0 <= i < |events| && events[i].Pass? && t < events[i].at <= t + 30_000_000_000;
    assert p < i;
    assert ExpiresIt(events, p, i);
    FoundIff(events, id, p);
  }

  /** Once a job's last result is stored, every later lookup that finds the job returns that result. */
  lemma LookupsAgree(events: seq<Event>, more: seq<Event>, id: string, p: int)
    requires LastPut(events, id, p)
    requires forall i :: 0 <= i < |more| ==> !(more[i].Put? && more[i].id == id)
    ensures var later := Found(After(events + more), id); later.None? || later == Some(events[p].result)
    ensures Found(After(events), id).None? ==> Found(After(events + more), id).None?
  {
    var all := events + more;
    assert forall i :: 0 <= i < |events| ==> all[i] == events[i];
    assert forall i :: |events| <= i < |all| ==> all[i] == more[i - |events|];
    assert LastPut(all, id, p);
    FoundIff(events, id, p);
    FoundIff(all, id, p);
    if i :| ExpiresIt(events, p, i) {
      assert ExpiresIt(all, p, i);
    }
  }
}
