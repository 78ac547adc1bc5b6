/**
 * The gateway's per-address fixed-window rate limiter: an admission step run
 * before every request and a periodic sweep of idle records. Time is an
 * integer count of milliseconds passed in by the caller.
 */
module RateLimiter {

  /** Length of one accounting window, in milliseconds. */
  const Window: int := 60000
  /** Requests admitted per address and window. */
  const MaxRequests: int := 30
  /** How often the sweep runs, in milliseconds (the timer itself is not modelled). */
  const SweepPeriod: int := 300000

  datatype Record = Record(count: int, resetTime: int)

  type Table = map<string, Record>

  datatype Decision = Allowed | Rejected(retryAfter: int)

  datatype Admission = Admission(decision: Decision, table: Table)

  /** Every record counts between one and the ceiling. */
  ghost predicate WellFormed(table: Table) {
    forall ip :: ip in table ==> 1 <= table[ip].count <= MaxRequests
  }

  /** No window ends later than one window length after `now`: true of every
      table built by admissions at times no later than `now`. */
  ghost predicate ClockBound(table: Table, now: int) {
    forall ip :: ip in table ==> table[ip].resetTime <= now + Window
  }

  /** `Math.ceil(x / 1000)`. */
  function CeilSeconds(x: int): (q: int)
    ensures 1000 * (q - 1) < x <= 1000 * q
  {
    -((-x) / 1000)
  }

  /** One pass of the rate-limit middleware for a request from `ip` at `now`. */
  function Admit(table: Table, ip: string, now: int): (a: Admission)
    ensures a.decision.Allowed? <==>
              ip !in table || now > table[ip].resetTime || table[ip].count < MaxRequests
    ensures ip in a.table
    ensures forall k :: k != ip ==> (k in a.table <==> k in table)
    ensures forall k :: k != ip && k in table ==> a.table[k] == table[k]
    ensures a.decision.Rejected? ==>
              && a.table == table
              && now <= table[ip].resetTime
              && table[ip].count >= MaxRequests
              && 1000 * (a.decision.retryAfter - 1) < table[ip].resetTime - now <= 1000 * a.decision.retryAfter
    ensures a.decision.Allowed? && (ip !in table || now > table[ip].resetTime) ==>
              a.table[ip] == Record(1, now + Window)
    ensures a.decision.Allowed? && ip in table && now <= table[ip].resetTime ==>
              a.table[ip] == Record(table[ip].count + 1, table[ip].resetTime)
    ensures WellFormed(table) ==> WellFormed(a.table)
    ensures ClockBound(table, now) ==> ClockBound(a.table, now)
    ensures ClockBound(table, now) && a.decision.Rejected? ==> 0 <= a.decision.retryAfter <= Window / 1000
  {
    if ip !in table then
      Admission(Allowed, table[ip := Record(1, now + Window)])
    else
      var record := table[ip];
      if now > record.resetTime then
        Admission(Allowed, table[ip := Record(1, now + Window)])
      else if record.count >= MaxRequests then
        Admission(Rejected(CeilSeconds(record.resetTime - now)), table)
      else
        Admission(Allowed, table[ip := record.(count := record.count + 1)])
  }

  /** The periodic cleanup: drops every record idle for more than a window
      past its reset time and keeps every other record as it was. */
  function Sweep(table: Table, now: int): (r: Table)
    ensures forall ip :: ip in r <==> ip in table && now <= table[ip].resetTime + Window
    ensures forall ip :: ip in r ==> r[ip] == table[ip]
    ensures WellFormed(table) ==> WellFormed(r)
  {
    map ip | ip in table && !(now > table[ip].resetTime + Window) :: table[ip]
  }

  /** A later clock reading keeps the bound. */
  lemma ClockBoundMonotone(table: Table, now: int, later: int)
    requires ClockBound(table, now) && now <= later
    ensures ClockBound(table, later)
  {
  }

  /** Sweeping is invisible to the next admission: a removed record had
      already expired, so admitting afresh gives the same decision and the
      same record for that address. */
  lemma SweepIsInvisible(table: Table, now: int, ip: string, later: int)
    requires now <= later
    ensures Admit(Sweep(table, now), ip, later).decision == Admit(table, ip, later).decision
    ensures Admit(Sweep(table, now), ip, later).table[ip] == Admit(table, ip, later).table[ip]
  {
    if ip in table && ip !in Sweep(table, now) {
      assert later > table[ip].resetTime;
    }
  }

  /** A table last touched at `last` is empty after a sweep more than two
      windows later. */
  lemma SweepEvictsIdle(table: Table, last: int, now: int)
    requires ClockBound(table, last) && now > last + 2 * Window
    ensures Sweep(table, now) == map[]
  {
    assert forall ip :: ip !in Sweep(table, now);
  }

  /** The decisions for a run of requests from one address. */
  function AdmitMany(table: Table, ip: string, times: seq<int>): (r: (nat, Table))
    ensures r.0 <= |times|
    decreases |times|
  {
    if times == [] then (0, table)
    else
      var a := Admit(table, ip, times[0]);
      var rest := AdmitMany(a.table, ip, times[1..]);
      (rest.0 + (if a.decision.Allowed? then 1 else 0), rest.1)
  }

  function Min(a: int, b: int): int { if a <= b then a else b }

  /** Requests at times that never go backwards keep every window end
      within one window of the latest request, which is what bounds a
      rejection's `retryAfter` by 60 seconds. */
  lemma {:induction false} ClockKept(table: Table, ip: string, now: int, times: seq<int>)
    requires ClockBound(table, now)
    requires forall i, j :: 0 <= i <= j < |times| ==> now <= times[i] <= times[j]
    ensures ClockBound(AdmitMany(table, ip, times).1, if times == [] then now else times[|times| - 1])
    decreases |times|
  {
    if times != [] {
      ClockBoundMonotone(table, now, times[0]);
      var a := Admit(table, ip, times[0]);
      var rest := times[1..];
      assert forall i, j :: 0 <= i <= j < |rest| ==> times[0] <= rest[i] <= rest[j] by {
        forall i, j | 0 <= i <= j < |rest| ensures times[0] <= rest[i] <= rest[j] {
          assert rest[i] == times[i + 1] && rest[j] == times[j + 1];
        }
      }
      ClockKept(a.table, ip, times[0], rest);
      if rest != [] {
        assert rest[|rest| - 1] == times[|times| - 1];
      }
    }
  }

  /** Inside one window, requests are admitted until the count reaches the
      ceiling and rejected from then on; the window's end does not move. */
  lemma {:induction false} WithinWindow(table: Table, ip: string, times: seq<int>)
    requires ip in table && 1 <= table[ip].count <= MaxRequests
    requires forall i :: 0 <= i < |times| ==> times[i] <= table[ip].resetTime
    ensures AdmitMany(table, ip, times).0 == Min(|times|, MaxRequests - table[ip].count)
    ensures ip in AdmitMany(table, ip, times).1
    ensures AdmitMany(table, ip, times).1[ip]
            == Record(table[ip].count + AdmitMany(table, ip, times).0, table[ip].resetTime)
  {
    if times != [] {
      var a := Admit(table, ip, times[0]);
      WithinWindow(a.table, ip, times[1..]);
    }
  }

  /** From the first request of an address, at most `MaxRequests` requests
      are admitted until the window closes: the 31st is rejected. */
  lemma WindowCeiling(table: Table, ip: string, first: int, later: seq<int>)
    requires ip !in table
    requires forall i :: 0 <= i < |later| ==> later[i] <= first + Window
    ensures AdmitMany(table, ip, [first] + later).0 == Min(1 + |later|, MaxRequests)
  {
    var a := Admit(table, ip, first);
    assert ([first] + later)[1..] == later;
    WithinWindow(a.table, ip, later);
  }
}
