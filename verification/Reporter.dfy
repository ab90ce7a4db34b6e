/** The rate-limited error channel (runtimes/go/report.go). */
module Reporter {

  const MAX_TRACKED: nat := 4096

  /** When an error was last reported, and how many identical ones were suppressed since. */
  datatype Entry = Entry(last: int, suppressed: nat)

  type Seen = map<string, Entry>

  /** The outcome of admit: whether the error is reported, and with what count of repeats. */
  datatype Verdict = Reported(repeated: nat) | Suppressed

  function Unexpired(seen: Seen, window: int, now: int): Seen {
    map k | k in seen && now - seen[k].last < window :: seen[k]
  }

  /** evict: nothing below the bound; else the expired entries, and then everything. */
  function Evict(seen: Seen, window: int, now: int): Seen {
    if |seen| < MAX_TRACKED then seen
    else if |Unexpired(seen, window, now)| >= MAX_TRACKED then map[]
    else Unexpired(seen, window, now)
  }

  predicate Recent(seen: Seen, window: int, key: string, now: int) {
    key in seen && now - seen[key].last < window
  }

  function Admit(seen: Seen, window: int, key: string, now: int): (Verdict, Seen) {
    if Recent(seen, window, key, now) then
      (Suppressed, seen[key := seen[key].(suppressed := seen[key].suppressed + 1)])
    else
      (Reported(if key in seen then seen[key].suppressed else 0), Evict(seen, window, now)[key := Entry(now, 0)])
  }

  lemma {:induction false} EvictLeavesRoom(seen: Seen, window: int, now: int)
    requires |seen| <= MAX_TRACKED
    ensures |Evict(seen, window, now)| < MAX_TRACKED
  {
    hide Unexpired;
  }

  lemma {:induction false} OneMoreKey(seen: Seen, key: string, e: Entry)
    ensures |seen[key := e]| <= |seen| + 1 && (key in seen ==> |seen[key := e]| == |seen|)
  {
    assert seen[key := e].Keys == seen.Keys + {key};
    assert key in seen ==> seen[key := e].Keys == seen.Keys;
  }

  /** The tracking map stays bounded. */
  lemma {:induction false} AdmitIsBounded(seen: Seen, window: int, key: string, now: int)
    requires |seen| <= 4096
    ensures |Admit(seen, window, key, now).1| <= 4096
  {
    hide Evict;
    EvictLeavesRoom(seen, window, now);
    OneMoreKey(Evict(seen, window, now), key, Entry(now, 0));
    if key in seen {
      OneMoreKey(seen, key, seen[key].(suppressed := seen[key].suppressed + 1));
    }
  }

  // ----- Runs -----

  datatype Call = Call(key: string, at: int)

  /** The states of the map before each call and after the last. */
  function States(seen: Seen, window: int, calls: seq<Call>): (r: seq<Seen>)
    ensures |r| == |calls| + 1
    decreases |calls|
  {
    if calls == [] then [seen]
    else [seen] + States(Admit(seen, window, calls[0].key, calls[0].at).1, window, calls[1..])
  }

  predicate InOrder(calls: seq<Call>, from: int) {
    forall i :: 0 <= i < |calls| ==> from <= calls[i].at && forall j :: i <= j < |calls| ==> calls[i].at <= calls[j].at
  }

  /** A call after which the map started over. */
  predicate StartsOver(seen: Seen, window: int, c: Call) {
    !Recent(seen, window, c.key, c.at) && |seen| >= 4096 && |Unexpired(seen, window, c.at)| >= 4096
  }

  /** How many of the first calls, all for other errors or suppressed, count against key. */
  function Count(calls: seq<Call>, key: string): nat {
    if calls == [] then 0 else (if calls[0].key == key then 1 else 0) + Count(calls[1..], key)
  }

  /** After an error is reported, identical ones within the window are suppressed and counted, as
      long as the map does not start over; what is counted is the number of them. */
  lemma {:induction false} SuppressedWithinWindow(seen: Seen, window: int, calls: seq<Call>, key: string, start: int)
    requires key in seen && seen[key].last == start && InOrder(calls, start)
    requires forall i :: 0 <= i < |calls| ==> calls[i].at - start < window
    requires var states := States(seen, window, calls); forall i :: 0 <= i < |calls| ==> !StartsOver(states[i], window, calls[i])
    ensures var states := States(seen, window, calls);
            (forall i :: 0 <= i < |calls| && calls[i].key == key ==> Admit(states[i], window, key, calls[i].at).0 == Suppressed) &&
            key in states[|calls|] && states[|calls|][key].last == start &&
            states[|calls|][key].suppressed == seen[key].suppressed + Count(calls, key)
    decreases |calls|
  {
    if calls != [] {
      var c := calls[0];
      var next := Admit(seen, window, c.key, c.at).1;
      var states := States(seen, window, calls);
      var rest := States(next, window, calls[1..]);
      assert states == [seen] + rest;
      assert !StartsOver(states[0], window, c);
      assert key in next && next[key].last == start;
      forall i | 0 <= i < |calls[1..]| ensures !StartsOver(rest[i], window, calls[1..][i]) {
        assert !StartsOver(states[i + 1], window, calls[i + 1]);
      }
      SuppressedWithinWindow(next, window, calls[1..], key, start);
      forall i | 0 <= i < |calls| && calls[i].key == key ensures Admit(states[i], window, key, calls[i].at).0 == Suppressed {
        if i > 0 {
          assert states[i] == rest[i - 1] && calls[i] == calls[1..][i - 1];
        }
      }
    }
  }

  /** The next report of an error, once its window has passed, carries the number of identical
      errors suppressed in between. */
  lemma {:induction false} ReportCarriesCount(seen: Seen, window: int, calls: seq<Call>, key: string, start: int, later: int)
    requires key in seen && seen[key] == Entry(start, 0) && InOrder(calls, start)
    requires forall i :: 0 <= i < |calls| ==> calls[i].at - start < window
    requires var states := States(seen, window, calls); forall i :: 0 <= i < |calls| ==> !StartsOver(states[i], window, calls[i])
    requires later - start >= window
    ensures Admit(States(seen, window, calls)[|calls|], window, key, later).0 == Reported(Count(calls, key))
  {
    SuppressedWithinWindow(seen, window, calls, key, start);
  }

  class Limiter {
    const window: int
    var seen: Seen

    constructor (window: int)
      ensures this.window == window && seen == map[]
    {
      this.window, seen := window, map[];
    }

    method EvictEntries(now: int)
      modifies this
      ensures seen == Evict(old(seen), window, now)
    {
      if |seen| < MAX_TRACKED {
        return;
      }
      var rest := seen.Keys;
      while rest != {}
        invariant rest <= old(seen).Keys
        invariant forall k :: k in seen <==> k in old(seen) && (k in rest || now - old(seen)[k].last < window)
        invariant forall k :: k in seen ==> seen[k] == old(seen)[k]
        decreases |rest|
      {
        var k :| k in rest;
        rest := rest - {k};
        if now - seen[k].last >= window {
          seen := seen - {k};
        }
      }
      assert seen == Unexpired(old(seen), window, now);
      if |seen| >= MAX_TRACKED {
        seen := map[];
      }
    }

    method AdmitError(key: string, now: int) returns (v: Verdict)
      modifies this
      ensures (v, seen) == Admit(old(seen), window, key, now)
    {
      var repeated := 0;
      if key in seen && now - seen[key].last < window {
        seen := seen[key := seen[key].(suppressed := seen[key].suppressed + 1)];
        return Suppressed;
      } else if key in seen {
        repeated := seen[key].suppressed;
      }
      EvictEntries(now);
      seen := seen[key := Entry(now, 0)];
      v := Reported(repeated);
    }
  }
}
