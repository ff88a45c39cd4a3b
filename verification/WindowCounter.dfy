/** `expiring_counter`: a fixed-window counter in Redis that never outlives its window. */
module WindowCounter {
  import opened Text

  /** A key of the server; `expires` is the time at which it is gone, and None for a key that stays for ever. */
  datatype Entry = Entry(value: int, expires: Option<nat>)

  /** How a call of the helper goes: it works; Redis refuses the transaction; the transaction is done but its reply is
      lost; Redis refuses the repair of a key without expiry; the repair is done but its reply is lost. */
  datatype Outcome = Works | Refused | ReplyLost | HealRefused | HealLost

  predicate Live(e: Option<Entry>, now: nat) {
    e.Some? && (e.value.expires.Some? ==> now < e.value.expires.value)
  }

  // ---- The helper ----

  class Server {
    var now: nat
    var entry: Option<Entry>

    constructor (now: nat)
      ensures this.now == now && entry == None
    {
      this.now, entry := now, None;
    }

    /** `SET key 0 NX EX window`, `INCRBY key amount` and `TTL key` in one transaction. */
    method Transaction(window: nat, amount: nat) returns (count: int, ttl: int)
      requires window > 0
      modifies this`entry
      ensures entry == Some(Counted(old(entry), now, window, amount)) && count == entry.value.value
      ensures ttl == -1 <==> entry.value.expires == None
    {
      if !Live(entry, now) {
        entry := Some(Entry(0, Some(now + window)));
      }
      entry := Some(entry.value.(value := entry.value.value + amount));
      count := entry.value.value;
      ttl := if entry.value.expires == None then -1 else entry.value.expires.value - now;
    }

    /** `EXPIRE key window`. */
    method Expire(window: nat)
      modifies this`entry
      ensures entry ==
              if Live(old(entry), now) then Some(old(entry).value.(expires := Some(now + window))) else old(entry)
    {
      if Live(entry, now) {
        entry := Some(entry.value.(expires := Some(now + window)));
      }
    }

    /** `expiring_counter`. None is a `redis.RedisError`. */
    method ExpiringCounter(window: nat, amount: nat, outcome: Outcome) returns (result: Option<int>)
      requires window > 0
      modifies this`entry
      ensures (entry, result) == Hit(old(entry), now, window, amount, outcome)
    {
      if outcome == Refused {
        return None;
      }
      var count, ttl := Transaction(window, amount);
      if outcome == ReplyLost {
        return None;
      }
      if ttl == -1 {
        if outcome == HealRefused {
          return None;
        }
        Expire(window);
        if outcome == HealLost {
          return None;
        }
      }
      return Some(count);
    }
  }

  /** The key after the transaction. */
  function Counted(e: Option<Entry>, now: nat, window: nat, amount: nat): Entry {
    if Live(e, now) then e.value.(value := e.value.value + amount) else Entry(amount, Some(now + window))
  }

  /** The key and the result after one call of the helper. */
  function Hit(e: Option<Entry>, now: nat, window: nat, amount: nat, outcome: Outcome): (Option<Entry>, Option<int>) {
    var c := Counted(e, now, window, amount);
    if outcome == Refused then (e, None)
    else if outcome == ReplyLost then (Some(c), None)
    else if c.expires.Some? then (Some(c), Some(c.value))
    else if outcome == HealRefused then (Some(c), None)
    else
      (Some(c.(expires := Some(now + window))), if outcome == HealLost then None else Some(c.value))
  }

  // ---- Runs ----

  /** What happens to one key: time passes, the helper is called, or an older caller increments it without expiry. */
  datatype Event = Tick(passed: nat) | Call(window: nat, amount: nat, outcome: Outcome) | OldIncrement

  datatype State = State(now: nat, entry: Option<Entry>)

  function Next(s: State, e: Event): State {
    match e
    case Tick(passed) => s.(now := s.now + passed)
    case Call(window, amount, outcome) => s.(entry := Hit(s.entry, s.now, window, amount, outcome).0)
    case OldIncrement =>
      s.(entry := Some(if Live(s.entry, s.now) then s.entry.value.(value := s.entry.value.value + 1)
                       else Entry(1, None)))
  }

  function After(s: State, events: seq<Event>): State
    decreases |events|
  {
    if events == [] then s else After(Next(s, events[0]), events[1..])
  }

  function Result(s: State, e: Event): Option<int> {
    if e.Call? then Hit(s.entry, s.now, e.window, e.amount, e.outcome).1 else None
  }

  /** What the events add to the key: calls that reached Redis, and old increments. */
  function Added(events: seq<Event>): nat {
    if events == [] then 0
    else
      (match events[0]
       case Tick(_) => 0
       case Call(_, amount, outcome) => if outcome == Refused then 0 else amount
       case OldIncrement => 1)
      + Added(events[1..])
  }

  function Elapsed(events: seq<Event>): nat {
    if events == [] then 0 else (if events[0].Tick? then events[0].passed else 0) + Elapsed(events[1..])
  }

  /** A call that returns leaves a key with an expiry still to come, whatever the key was before. */
  lemma SuccessExpires(s: State, e: Event)
    requires Result(s, e).Some? && e.window > 0
    ensures var t := Next(s, e);
            && Live(t.entry, t.now) && t.entry.value.expires.Some? && t.entry.value.value == Result(s, e).value
            && (s.entry == None || !Live(s.entry, s.now) || s.entry.value.expires == None ==>
                  t.entry.value.expires == Some(s.now + e.window))
            && (Live(s.entry, s.now) && s.entry.value.expires.Some? ==> t.entry.value.expires == s.entry.value.expires)
  {
  }

  /** A live key with an expiry keeps it, and counts everything that is added, until it expires. */
  lemma {:induction false} LiveCounts(s: State, events: seq<Event>)
    requires s.entry.Some? && s.entry.value.expires.Some?
    requires s.now + Elapsed(events) < s.entry.value.expires.value
    ensures After(s, events) == State(s.now + Elapsed(events),
              Some(Entry(s.entry.value.value + Added(events), s.entry.value.expires)))
    decreases |events|
  {
    if events != [] {
      LiveCounts(Next(s, events[0]), events[1..]);
    }
  }

  lemma {:induction false} AfterConcat(s: State, a: seq<Event>, b: seq<Event>)
    ensures After(s, a + b) == After(After(s, a), b)
    ensures Added(a + b) == Added(a) + Added(b) && Elapsed(a + b) == Elapsed(a) + Elapsed(b)
    decreases |a|
  {
    if a == [] {
      assert a + b == b;
    } else {
      assert (a + b)[1..] == a[1..] + b;
      AfterConcat(Next(s, a[0]), a[1..], b);
    }
  }

  /** Within a window that the helper started, every call that returns, returns the sum of everything added since the
      first hit, its own amount included; and nothing ever moves the end of the window. */
  lemma WindowSums(s: State, first: Event, events: seq<Event>, last: Event)
    requires !Live(s.entry, s.now)
    requires first.Call? && first.window > 0 && first.outcome != Refused
    requires Elapsed(events) < first.window
    requires last.Call?
    ensures var t := After(s, [first] + events);
            && t.entry == Some(Entry(first.amount + Added(events), Some(s.now + first.window)))
            && (Result(t, last).Some? ==> Result(t, last).value == first.amount + Added(events) + last.amount)
            && Next(t, last).entry.value.expires == Some(s.now + first.window)
  {
    AfterConcat(s, [first], events);
    assert [first][1..] == [];
    assert After(s, [first]) == Next(s, first);
    LiveCounts(Next(s, first), events);
  }

  /** When the window is over the key is gone, and the next call starts a new window with its own amount. */
  lemma WindowEnds(s: State, e: Event)
    requires s.entry.Some? && s.entry.value.expires.Some? && s.now >= s.entry.value.expires.value
    requires e.Call? && e.window > 0 && e.outcome != Refused
    ensures Next(s, e).entry == Some(Entry(e.amount, Some(s.now + e.window)))
  {
  }

  predicate Expiring(e: Option<Entry>) { e.Some? ==> e.value.expires.Some? }

  predicate NoOldIncrement(events: seq<Event>) {
    events != [] ==> !events[0].OldIncrement? && NoOldIncrement(events[1..])
  }

  /** Where only the helper counts, no failure at any point ever leaves a key without an expiry. */
  lemma {:induction false} NeverForEver(s: State, events: seq<Event>)
    requires Expiring(s.entry) && NoOldIncrement(events)
    ensures Expiring(After(s, events).entry)
    decreases |events|
  {
    if events != [] {
      NeverForEver(Next(s, events[0]), events[1..]);
    }
  }

  /** No repair reaches the key. */
  predicate Unrepaired(events: seq<Event>) {
    events != [] ==>
      && (events[0].Call? ==> events[0].outcome != Works && events[0].outcome != HealLost)
      && Unrepaired(events[1..])
  }

  lemma {:induction false} StillWithout(s: State, events: seq<Event>)
    requires s.entry.Some? && s.entry.value.expires == None && Unrepaired(events)
    ensures After(s, events) == State(s.now + Elapsed(events), Some(Entry(s.entry.value.value + Added(events), None)))
    decreases |events|
  {
    if events != [] {
      StillWithout(Next(s, events[0]), events[1..]);
    }
  }

  /** A key that an old caller left without an expiry loses nothing of its count, however often its repair fails, and
      the next call that returns gives it a window. */
  lemma HealsInTheEnd(s: State, events: seq<Event>, last: Event)
    requires s.entry.Some? && s.entry.value.expires == None && Unrepaired(events)
    requires last.Call? && last.window > 0 && Result(After(s, events), last).Some?
    ensures var t := After(s, events);
            var count := s.entry.value.value + Added(events) + last.amount;
            && Result(t, last) == Some(count)
            && Next(t, last).entry == Some(Entry(count, Some(s.now + Elapsed(events) + last.window)))
  {
    StillWithout(s, events);
  }
}
