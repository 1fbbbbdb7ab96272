/** The registry of secret values and its cached matcher (src/redact.rs). Text is a sequence of
    bytes and an instant is a number. */
module Redaction {
  import opened Wrappers

  newtype byte = b: int | 0 <= b < 256
  type Bytes = seq<byte>
  type Instant = int

  /** What has happened to the registry so far; the meaning of "secret" is a function of it. */
  datatype Event =
    | Registered(value: Bytes)
    | RegisteredUntil(value: Bytes, until: Instant)
    | ScopeOpened(value: Bytes)
    | ScopeClosed(value: Bytes)

  ghost predicate Permanent(log: seq<Event>, v: Bytes) {
    Registered(v) in log
  }

  /** Some registration of `v` runs past `now`. */
  ghost predicate Unexpired(log: seq<Event>, v: Bytes, now: Instant) {
    exists e :: e in log && e.RegisteredUntil? && e.value == v && now < e.until
  }

  /** How many scopes for `v` are open; closing a scope that is not open does nothing. */
  ghost function OpenScopes(log: seq<Event>, v: Bytes): nat {
    if log == [] then 0 else NextScopes(OpenScopes(log[..|log| - 1], v), log[|log| - 1], v)
  }

  ghost function NextScopes(n: nat, e: Event, v: Bytes): nat {
    if e == ScopeOpened(v) then n + 1
    else if e == ScopeClosed(v) && n > 0 then n - 1
    else n
  }

  /** The values that must be masked at `now`. */
  ghost predicate Live(log: seq<Event>, v: Bytes, now: Instant) {
    v != [] && (Permanent(log, v) || Unexpired(log, v, now) || OpenScopes(log, v) > 0)
  }

  /** A compiled matcher: the secrets it masks, and the earliest expiry among the values it was
      compiled from. Sharing it is sharing an immutable value. */
  datatype Matcher = Matcher(secrets: set<Bytes>, validUntil: Option<Instant>) {
    predicate Current(now: Instant) {
      validUntil.None? || now < validUntil.value
    }
  }

  class Registry {
    var permanent: set<Bytes>
    var expiring: map<Bytes, Instant>
    var scoped: map<Bytes, nat>
    var matcher: Option<Matcher>

    ghost var log: seq<Event>
    ghost var clock: Instant

    /** The expiring table holds, for every value that is not permanent, its latest deadline
        unless that is already past. */
    ghost predicate Deadlines()
      reads this
    {
      && (forall v :: v in expiring ==> v !in permanent && RegisteredUntil(v, expiring[v]) in log)
      && (forall e :: e in log && e.RegisteredUntil? && clock < e.until && e.value !in permanent
            ==> e.value in expiring && e.until <= expiring[e.value])
    }

    ghost predicate Scopes()
      reads this
    {
      && (forall v :: v in scoped <==> OpenScopes(log, v) > 0)
      && (forall v :: v in scoped ==> scoped[v] == OpenScopes(log, v))
    }

    /** The fields represent the log as of `clock`, the latest time the registry was told. */
    ghost predicate Represents()
      reads this
    {
      && (forall v :: v in permanent <==> Permanent(log, v))
      && Deadlines()
      && Scopes()
    }

    ghost predicate CacheAgrees()
      reads this
    {
      matcher.Some? ==>
        && matcher.value.secrets == Compiled()
        && forall v :: v in expiring ==> matcher.value.validUntil.Some? && matcher.value.validUntil.value <= expiring[v]
    }

    ghost predicate Valid()
      reads this
    {
      Represents() && CacheAgrees()
    }

    /** The non-empty keys of the three tables. */
    function Compiled(): set<Bytes>
      reads this
    {
      set v | v in permanent + expiring.Keys + scoped.Keys && v != []
    }

    constructor ()
      ensures Valid() && log == []
    {
      permanent, expiring, scoped, matcher := {}, map[], map[], None;
      log, clock := [], 0;
    }

    method Register(value: Bytes)
      requires Valid()
      modifies this
      ensures Valid() && log == old(log) + [Registered(value)] && clock == old(clock)
    {
      var removed := value in expiring;
      expiring := expiring - {value};
      if value !in permanent || removed {
        matcher := None;
      }
      permanent := permanent + {value};
      ghost var e := Registered(value);
      SameScopes(log, e);
      assert forall v :: Permanent(log + [e], v) <==> Permanent(log, v) || v == value;
      log := log + [e];
    }

    method RegisterUntil(value: Bytes, until: Instant, now: Instant)
      requires Valid() && clock <= now
      modifies this
      ensures Valid() && log == old(log) + [RegisteredUntil(value, until)] && clock == now
    {
      Prune(now);
      Extend(value, until);
      ghost var e := RegisteredUntil(value, until);
      SameScopes(log, e);
      assert forall v :: Permanent(log + [e], v) <==> Permanent(log, v);
      log := log + [e];
    }

    /** The table update of `register_until`, after pruning. */
    method Extend(value: Bytes, until: Instant)
      requires CacheAgrees()
      modifies `expiring, `matcher
      ensures CacheAgrees()
      ensures expiring == if value in permanent || (value in old(expiring) && until <= old(expiring)[value])
                          then old(expiring) else old(expiring)[value := until]
    {
      if value in permanent {
        return;
      }
      var inserted := value !in expiring;
      if inserted || expiring[value] < until {
        expiring := expiring[value := until];
      }
      if inserted {
        matcher := None;
      }
    }

    method AddScoped(value: Bytes)
      requires Valid()
      modifies this
      ensures Valid() && log == old(log) + [ScopeOpened(value)] && clock == old(clock)
    {
      var count := if value in scoped then scoped[value] + 1 else 1;
      scoped := scoped[value := count];
      if count == 1 {
        matcher := None;
      }
      log := log + [ScopeOpened(value)];
      OpenScopesStep(old(log), ScopeOpened(value));
    }

    method RemoveScoped(value: Bytes)
      requires Valid()
      modifies this
      ensures Valid() && log == old(log) + [ScopeClosed(value)] && clock == old(clock)
    {
      log := log + [ScopeClosed(value)];
      OpenScopesStep(old(log), ScopeClosed(value));
      if value in scoped {
        scoped := scoped[value := scoped[value] - 1];
        if scoped[value] == 0 {
          scoped := scoped - {value};
          matcher := None;
        }
      }
    }

    method Prune(now: Instant)
      requires Valid() && clock <= now
      modifies this
      ensures Valid() && log == old(log) && clock == now
      ensures permanent == old(permanent) && scoped == old(scoped)
      ensures forall v :: v in expiring ==> now < expiring[v]
      ensures (forall v <- old(expiring) :: now < old(expiring)[v]) ==> expiring == old(expiring) && matcher == old(matcher)
    {
      var before := |expiring|;
      expiring := map v | v in expiring && now < expiring[v] :: expiring[v];
      assert (forall v <- old(expiring) :: now < old(expiring)[v]) ==> expiring == old(expiring);
      if |expiring| != before {
        matcher := None;
      }
      clock := now;
      if |expiring| == before {
        SameSize(expiring, old(expiring));
      }
    }

    method Compile()
      modifies `matcher
      ensures matcher.Some? && CacheAgrees()
    {
      var validUntil := if expiring == map[] then None else Some(Earliest(expiring.Values));
      assert forall v :: v in expiring ==> expiring[v] in expiring.Values;
      matcher := Some(Matcher(Compiled(), validUntil));
    }

    /** The write-locked path: prune, then reuse the cached matcher or compile a new one. */
    method GetMatcher(now: Instant) returns (m: Matcher)
      requires Valid() && clock <= now
      modifies this
      ensures Valid() && log == old(log) && clock == now
      ensures forall v :: v in m.secrets <==> Live(log, v, now)
      ensures matcher == Some(m)
      ensures (old(matcher).Some?
        && (old(matcher).value.validUntil.None? || now < old(matcher).value.validUntil.value)) ==>
        m == old(matcher).value
    {
      if matcher.Some? && matcher.value.Current(now) { CurrentMeansUnexpired(now); }
      Prune(now);
      LiveIsCompiled(now);
      if matcher.None? || !matcher.value.Current(now) {
        Compile();
      }
      m := matcher.value;
    }

    /** The read-locked fast path in front of it: a current cached matcher is handed out without
        pruning. */
    method SharedMatcher(now: Instant) returns (m: Matcher)
      requires Valid() && clock <= now
      modifies this
      ensures Valid() && log == old(log)
      ensures forall v :: v in m.secrets <==> Live(log, v, now)
      ensures matcher == Some(m)
      ensures (old(matcher).Some?
        && (old(matcher).value.validUntil.None? || now < old(matcher).value.validUntil.value)) ==>
        m == old(matcher).value && permanent == old(permanent) && expiring == old(expiring) && scoped == old(scoped)
    {
      if matcher.Some? && matcher.value.Current(now) {
        CurrentMeansUnexpired(now);
        LiveIsCompiled(now);
        clock := now;
        return matcher.value;
      }
      m := GetMatcher(now);
    }

    lemma CurrentMeansUnexpired(now: Instant)
      requires Valid() && matcher.Some? && matcher.value.Current(now)
      ensures forall v :: v in expiring ==> now < expiring[v]
    {
    }

    /** With nothing expired in the table, the keys are exactly the live values. */
    lemma LiveIsCompiled(now: Instant)
      requires Represents() && clock <= now
      requires forall v :: v in expiring ==> now < expiring[v]
      ensures forall v :: v in Compiled() <==> Live(log, v, now)
    {
      forall v ensures v in Compiled() <==> Live(log, v, now) {
        if v in expiring {
          assert RegisteredUntil(v, expiring[v]) in log;
        }
      }
    }
  }

  function Earliest(ts: set<Instant>): (t: Instant)
    requires ts != {}
    ensures t in ts && forall u <- ts :: t <= u
  {
    EarliestExists(ts);
    var t :| t in ts && forall u <- ts :: t <= u;
    t
  }

  lemma {:induction false} EarliestExists(ts: set<Instant>)
    requires ts != {}
    ensures exists t :: t in ts && forall u <- ts :: t <= u
    decreases |ts|
  {
    assert exists x :: x in ts by {
      if forall x :: x !in ts { assert false; }
    }
    var x :| x in ts;
    var rest := ts - {x};
    if rest == {} {
      assert forall u <- ts :: u in rest || u == x;
      assert forall u <- ts :: x <= u;
    } else {
      EarliestExists(rest);
      var t :| t in rest && forall u <- rest :: t <= u;
      var least := if t < x then t else x;
      forall u <- ts ensures least <= u {
        assert u in rest || u == x;
      }
      assert least in ts;
    }
  }

  lemma SameSize(small: map<Bytes, Instant>, large: map<Bytes, Instant>)
    requires |small| == |large| && small.Keys <= large.Keys
    ensures small.Keys == large.Keys
  {
    assert large.Keys == small.Keys + (large.Keys - small.Keys);
  }

  lemma OpenScopesStep(log: seq<Event>, e: Event)
    ensures forall v :: OpenScopes(log + [e], v) == NextScopes(OpenScopes(log, v), e, v)
  {
    assert (log + [e])[..|log|] == log;
  }

  lemma SameScopes(log: seq<Event>, e: Event)
    requires e.Registered? || e.RegisteredUntil?
    ensures forall v :: OpenScopes(log + [e], v) == OpenScopes(log, v)
  {
    OpenScopesStep(log, e);
  }
}
