/**
 * The pod-side cache of demos/warmstart/state_persistence.py. The module-level
 * dictionary CACHE and the counter CALL_COUNT survive between remote calls;
 * `cache_operation` bumps the counter on every call and then performs one of
 * the actions "set", "get", "list" or "clear", replying with a text that
 * reports the new call number. The reply is modelled by the `Reply`
 * datatype; where the text shows the cache, the reply carries a snapshot.
 */
module StatePersistence {
  import opened Py

  /** What a `get` of an absent key reports. */
  const NotFound: string := "NOT FOUND"

  /** The arguments of one call: `cache_operation(action, key, value)`. */
  datatype Call = Call(action: string, key: Option<string>, value: Option<string>)

  /** The text returned by one call, `call` being the value of CALL_COUNT after it. */
  datatype Reply =
    | SetOk(call: nat, key: string, value: string, cache: map<string, string>)
    | Got(call: nat, key: string, value: string, cache: map<string, string>)
    | Listed(call: nat, cache: map<string, string>)
    | Cleared(call: nat)
    | Unknown(call: nat, action: string)

  /** The module state kept on the pod: CACHE and CALL_COUNT. */
  datatype PodState = PodState(cache: map<string, string>, calls: nat)

  /** The state of a freshly imported module. */
  const Initial: PodState := PodState(map[], 0)

  /** `dict.get(key)`: the stored value, or None. */
  function Lookup(m: map<string, string>, k: string): Option<string> {
    if k in m then Some(m[k]) else None
  }

  /** The guard of the first branch: `action == "set" and key and value`. */
  predicate IsSet(c: Call) {
    c.action == "set" && Truthy(c.key) && Truthy(c.value)
  }

  /** The guard of the second branch: `action == "get" and key`. */
  predicate IsGet(c: Call) {
    c.action == "get" && Truthy(c.key)
  }

  /** The call is a successful set of key `k`. */
  predicate Stores(c: Call, k: string) {
    IsSet(c) && c.key.value == k
  }

  /** None of the four branches applies, so the call replies "Unknown action". */
  predicate IsUnknown(c: Call) {
    !IsSet(c) && !IsGet(c) && c.action != "list" && c.action != "clear"
  }

  /**
   * One call of `cache_operation` on the pod state `s`: the new state and the reply.
   */
  function Step(s: PodState, c: Call): (r: (PodState, Reply))
    // every call, whatever its action, counts once and reports the new count
    ensures r.0.calls == s.calls + 1 && r.1.call == r.0.calls
    // a successful set binds the key and leaves every other key as it was
    ensures IsSet(c) ==> Lookup(r.0.cache, c.key.value) == c.value
    ensures IsSet(c) ==> forall k :: k != c.key.value ==> Lookup(r.0.cache, k) == Lookup(s.cache, k)
    // clear empties the cache; no other action touches it
    ensures c.action == "clear" ==> r.0.cache == map[]
    ensures !IsSet(c) && c.action != "clear" ==> r.0.cache == s.cache
    // get reports the stored value, or NOT FOUND
    ensures IsGet(c) ==>
      r.1.Got? && r.1.key == c.key.value && r.1.value == Lookup(s.cache, c.key.value).GetOr(NotFound)
    // the reply says which branch was taken
    ensures r.1.SetOk? <==> IsSet(c)
    ensures r.1.Got? <==> IsGet(c)
    ensures r.1.Listed? <==> c.action == "list"
    ensures r.1.Cleared? <==> c.action == "clear"
    ensures r.1.Unknown? <==> IsUnknown(c)
    ensures r.1.Unknown? ==> r.1.action == c.action
    // set echoes the pair it stored and shows the updated cache; get and list show the cache as it is
    ensures r.1.SetOk? ==> r.1.key == c.key.value && r.1.value == c.value.value && r.1.cache == r.0.cache
    ensures r.1.Got? ==> r.1.cache == s.cache
    ensures r.1.Listed? ==> r.1.cache == s.cache
  {
    var n := s.calls + 1;
    if IsSet(c) then
      var m := s.cache[c.key.value := c.value.value];
      (PodState(m, n), SetOk(n, c.key.value, c.value.value, m))
    else if IsGet(c) then
      (PodState(s.cache, n), Got(n, c.key.value, Lookup(s.cache, c.key.value).GetOr(NotFound), s.cache))
    else if c.action == "list" then
      (PodState(s.cache, n), Listed(n, s.cache))
    else if c.action == "clear" then
      (PodState(map[], n), Cleared(n))
    else
      (PodState(s.cache, n), Unknown(n, c.action))
  }

  /**
   * A series of calls against the same pod, each seeing the state the previous
   * one left: the final state and the replies in order.
   */
  function Run(s: PodState, cs: seq<Call>): (r: (PodState, seq<Reply>))
    ensures r.0.calls == s.calls + |cs| && |r.1| == |cs|
    ensures forall i :: 0 <= i < |r.1| ==> r.1[i].call == s.calls + i + 1
    decreases |cs|
  {
    if cs == [] then (s, [])
    else
      var (s1, reply) := Step(s, cs[0]);
      var (s2, replies) := Run(s1, cs[1..]);
      (s2, [reply] + replies)
  }

  /** Running one more call after a series is the same as one longer series. */
  lemma {:induction false} RunSnoc(s: PodState, cs: seq<Call>, c: Call)
    ensures Run(s, cs + [c]).0 == Step(Run(s, cs).0, c).0
    ensures Run(s, cs + [c]).1 == Run(s, cs).1 + [Step(Run(s, cs).0, c).1]
    decreases |cs|
  {
    if cs == [] {
      assert cs + [c] == [c];
    } else {
      assert (cs + [c])[0] == cs[0];
      assert (cs + [c])[1..] == cs[1..] + [c];
      RunSnoc(Step(s, cs[0]).0, cs[1..], c);
    }
  }

  /**
   * What a key holds after a series of calls, read backwards: the value of the
   * last successful set of that key, unless a clear came later; the initial
   * value when neither happened.
   */
  function ValueAfter(init: map<string, string>, cs: seq<Call>, k: string): Option<string>
    decreases |cs|
  {
    if cs == [] then Lookup(init, k)
    else
      var last := cs[|cs| - 1];
      if Stores(last, k) then last.value
      else if last.action == "clear" then None
      else ValueAfter(init, cs[..|cs| - 1], k)
  }

  /** The cache after a series of calls holds exactly what ValueAfter says. */
  lemma {:induction false} RunValue(s: PodState, cs: seq<Call>, k: string)
    ensures Lookup(Run(s, cs).0.cache, k) == ValueAfter(s.cache, cs, k)
    decreases |cs|
  {
    if cs != [] {
      var front, last := cs[..|cs| - 1], cs[|cs| - 1];
      assert cs == front + [last];
      RunSnoc(s, front, last);
      RunValue(s, front, k);
    }
  }

  /** Get after a successful set returns the value just stored. */
  lemma SetThenGet(s: PodState, k: string, v: string, unused: Option<string>)
    requires k != "" && v != ""
    ensures Run(s, [Call("set", Some(k), Some(v)), Call("get", Some(k), unused)]).1[1]
         == Got(s.calls + 2, k, v, s.cache[k := v])
  {
  }

  /**
   * A get after any series of calls reports what ValueAfter gives for its key,
   * or NOT FOUND, together with the call number of the get.
   */
  lemma GetAfterRun(s: PodState, cs: seq<Call>, k: string, unused: Option<string>)
    requires k != ""
    ensures Run(s, cs + [Call("get", Some(k), unused)]).1[|cs|]
         == Got(s.calls + |cs| + 1, k, ValueAfter(s.cache, cs, k).GetOr(NotFound), Run(s, cs).0.cache)
  {
    RunSnoc(s, cs, Call("get", Some(k), unused));
    RunValue(s, cs, k);
  }

  /** After a clear, a get of any key reports NOT FOUND. */
  lemma ClearThenGet(s: PodState, k: string, unused: Option<string>)
    requires k != ""
    ensures Run(s, [Call("clear", None, None), Call("get", Some(k), unused)]).1[1]
         == Got(s.calls + 2, k, NotFound, map[])
  {
    GetAfterRun(s, [Call("clear", None, None)], k, unused);
    assert [Call("clear", None, None)] + [Call("get", Some(k), unused)]
        == [Call("clear", None, None), Call("get", Some(k), unused)];
  }

  /**
   * After a clear, a key stays absent until a later successful set of that
   * key, however many other calls come in between.
   */
  lemma {:induction false} ClearForgets(s: PodState, later: seq<Call>, k: string)
    requires forall i :: 0 <= i < |later| ==> !Stores(later[i], k)
    ensures Lookup(Run(s, [Call("clear", None, None)] + later).0.cache, k) == None
    decreases |later|
  {
    var cs := [Call("clear", None, None)] + later;
    RunValue(s, cs, k);
    if later != [] {
      var front := later[..|later| - 1];
      assert cs[..|cs| - 1] == [Call("clear", None, None)] + front;
      ClearForgets(s, front, k);
      RunValue(s, [Call("clear", None, None)] + front, k);
    }
  }

  /**
   * A series of calls with no successful set and no clear (gets, lists,
   * malformed or unknown actions) leaves the cache as it was.
   */
  lemma {:induction false} ReadOnlyRunKeepsCache(s: PodState, cs: seq<Call>)
    requires forall i :: 0 <= i < |cs| ==> !IsSet(cs[i]) && cs[i].action != "clear"
    ensures Run(s, cs).0.cache == s.cache
    decreases |cs|
  {
    if cs != [] {
      ReadOnlyRunKeepsCache(Step(s, cs[0]).0, cs[1..]);
    }
  }

  /** The module state of `state_persistence` as it lives on one pod. */
  class PodCache {
    var cache: map<string, string>
    var callCount: nat

    /** The abstract state, for relating the object to Step and Run. */
    function State(): PodState
      reads this
    {
      PodState(cache, callCount)
    }

    /** The module is imported: `CACHE = {}` and `CALL_COUNT = 0`. */
    constructor ()
      ensures State() == Initial
    {
      cache := map[];
      callCount := 0;
    }

    /** `cache_operation(action, key, value)` on this pod. */
    method CacheOperation(action: string, key: Option<string>, value: Option<string>) returns (reply: Reply)
      modifies this
      ensures callCount == old(callCount) + 1 && reply.call == callCount
      ensures IsSet(Call(action, key, value)) ==> cache == old(cache)[key.value := value.value]
      ensures IsGet(Call(action, key, value)) ==>
        reply == Got(callCount, key.value, Lookup(cache, key.value).GetOr(NotFound), cache)
      ensures action == "clear" ==> cache == map[]
      ensures !IsSet(Call(action, key, value)) && action != "clear" ==> cache == old(cache)
      ensures (State(), reply) == Step(old(State()), Call(action, key, value))
    {
      callCount := callCount + 1;
      if action == "set" && Truthy(key) && Truthy(value) {
        cache := cache[key.value := value.value];
        reply := SetOk(callCount, key.value, value.value, cache);
      } else if action == "get" && Truthy(key) {
        var val := Lookup(cache, key.value).GetOr(NotFound);
        reply := Got(callCount, key.value, val, cache);
      } else if action == "list" {
        reply := Listed(callCount, cache);
      } else if action == "clear" {
        cache := map[];
        reply := Cleared(callCount);
      } else {
        reply := Unknown(callCount, action);
      }
    }
  }
}
