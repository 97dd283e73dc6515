/** The per-namespace rate limiter of the controller. */
module Limiter {

  /** A call of allowScale: the namespace and the clock read under the lock. */
  datatype Call = Call(namespace: string, now: int)

  predicate Allows(last: map<string, int>, call: Call, minInterval: int) {
    call.namespace in last ==> call.now - last[call.namespace] >= minInterval
  }

  function Noted(last: map<string, int>, call: Call, minInterval: int): map<string, int> {
    if Allows(last, call, minInterval) then last[call.namespace := call.now] else last
  }

  /** The limiter's map after the first n calls of a run that began with an empty map. */
  function LastAfter(calls: seq<Call>, minInterval: int, n: nat): map<string, int>
    requires n <= |calls|
  {
    if n == 0 then map[] else Noted(LastAfter(calls, minInterval, n - 1), calls[n - 1], minInterval)
  }

  predicate Granted(calls: seq<Call>, minInterval: int, i: nat)
    requires i < |calls|
  {
    Allows(LastAfter(calls, minInterval, i), calls[i], minInterval)
  }

  /** The granted calls of one namespace among the first n. */
  function Grants(calls: seq<Call>, minInterval: int, namespace: string, n: nat): set<nat>
    requires n <= |calls|
  {
    set i: nat | i < n && calls[i].namespace == namespace && Granted(calls, minInterval, i)
  }

  class RateLimiter {
    var lastScale: map<string, int>

    constructor ()
      ensures lastScale == map[]
    {
      lastScale := map[];
    }

    method AllowScale(namespace: string, minInterval: int, now: int) returns (allowed: bool)
      modifies this
      ensures allowed == Allows(old(lastScale), Call(namespace, now), minInterval)
      ensures lastScale == Noted(old(lastScale), Call(namespace, now), minInterval)
    {
      if namespace in lastScale && now - lastScale[namespace] < minInterval {
        return false;
      }
      lastScale := lastScale[namespace := now];
      allowed := true;
    }
  }

  /** A controller's lifetime of calls, whatever their namespaces: the granted ones are those of Grants. */
  method Serve(calls: seq<Call>, minInterval: int) returns (granted: seq<bool>)
    ensures |granted| == |calls|
    ensures forall i | 0 <= i < |calls| :: granted[i] <==> i in Grants(calls, minInterval, calls[i].namespace, |calls|)
  {
    var limiter := new RateLimiter();
    granted := [];
    for n := 0 to |calls|
      invariant |granted| == n && limiter.lastScale == LastAfter(calls, minInterval, n)
      invariant forall i | 0 <= i < n :: granted[i] == Granted(calls, minInterval, i)
    {
      var ok := limiter.AllowScale(calls[n].namespace, minInterval, calls[n].now);
      granted := granted + [ok];
    }
  }

  /* ---------- spacing and optimality ---------- */

  /** The clock never runs backwards. */
  predicate Monotone(calls: seq<Call>) {
    forall i, j | 0 <= i <= j < |calls| :: calls[i].now <= calls[j].now
  }

  /** Calls of one namespace among the first n, pairwise at least minInterval apart. */
  predicate Spaced(calls: seq<Call>, minInterval: int, namespace: string, n: nat, chosen: set<nat>)
    requires n <= |calls|
  {
    && (forall i | i in chosen :: i < n && calls[i].namespace == namespace)
    && (forall i, j | i in chosen && j in chosen && i < j :: calls[j].now - calls[i].now >= minInterval)
  }

  /** The map remembers the latest grant, and every other grant is at least as old. */
  lemma {:induction false} LastIsLatestGrant(calls: seq<Call>, minInterval: int, namespace: string, n: nat)
    requires n <= |calls| && Monotone(calls)
    ensures var last := LastAfter(calls, minInterval, n);
            && (namespace in last <==> Grants(calls, minInterval, namespace, n) != {})
            && (namespace in last ==>
                  exists i :: i in Grants(calls, minInterval, namespace, n) && calls[i].now == last[namespace])
            && (forall i | i in Grants(calls, minInterval, namespace, n) ::
                  namespace in last && calls[i].now <= last[namespace])
  {
    if n > 0 {
      LastIsLatestGrant(calls, minInterval, namespace, n - 1);
      GrantsStep(calls, minInterval, namespace, n);
    }
  }

  lemma GrantsStep(calls: seq<Call>, minInterval: int, namespace: string, n: nat)
    requires 0 < n <= |calls|
    ensures Grants(calls, minInterval, namespace, n)
         == Grants(calls, minInterval, namespace, n - 1)
            + if calls[n - 1].namespace == namespace && Granted(calls, minInterval, n - 1) then {n - 1} else {}
  {
  }

  lemma {:induction false} GrantsAreSpaced(calls: seq<Call>, minInterval: int, namespace: string, n: nat)
    requires n <= |calls| && Monotone(calls)
    ensures Spaced(calls, minInterval, namespace, n, Grants(calls, minInterval, namespace, n))
  {
    if n > 0 {
      GrantsAreSpaced(calls, minInterval, namespace, n - 1);
      GrantsStep(calls, minInterval, namespace, n);
      LastIsLatestGrant(calls, minInterval, namespace, n - 1);
    }
  }

  /** Some chosen call is no earlier than t. */
  ghost predicate EndsAt(calls: seq<Call>, chosen: set<nat>, t: int)
    requires forall i | i in chosen :: i < |calls|
  {
    exists i :: i in chosen && calls[i].now >= t
  }

  /** One call of the namespace at index n: `last` is the latest of `count` grants so far, if any. */
  lemma ChosenCall(calls: seq<Call>, minInterval: int, namespace: string, n: nat, chosen: set<nat>,
                   count: nat, last: int)
    requires n < |calls| && Monotone(calls) && Spaced(calls, minInterval, namespace, n + 1, chosen) && n in chosen
    requires |chosen - {n}| <= count
    requires count > 0 ==> last <= calls[n].now && (|chosen - {n}| == count ==> EndsAt(calls, chosen - {n}, last))
    ensures |chosen| <= count + 1
    ensures count > 0 && calls[n].now - last < minInterval ==> |chosen| <= count
    ensures EndsAt(calls, chosen, calls[n].now)
  {
    assert |chosen| == |chosen - {n}| + 1;
    if count > 0 && |chosen - {n}| == count {
      var i :| i in chosen - {n} && calls[i].now >= last;
      assert calls[n].now - calls[i].now >= minInterval;
    }
  }

  lemma LatestIsPast(calls: seq<Call>, minInterval: int, namespace: string, n: nat)
    requires n < |calls| && Monotone(calls)
    ensures var before, last := Grants(calls, minInterval, namespace, n), LastAfter(calls, minInterval, n);
            (namespace in last <==> |before| > 0) && (namespace in last ==> last[namespace] <= calls[n].now)
  {
    LastIsLatestGrant(calls, minInterval, namespace, n);
  }

  /** The call at index n is a grant exactly when the namespace has none yet or its latest is old enough. */
  lemma GrantRule(calls: seq<Call>, minInterval: int, namespace: string, n: nat)
    requires n < |calls| && Monotone(calls)
    ensures var before, last := Grants(calls, minInterval, namespace, n), LastAfter(calls, minInterval, n);
            var grants, last' := Grants(calls, minInterval, namespace, n + 1), LastAfter(calls, minInterval, n + 1);
            && (namespace in last <==> |before| > 0)
            && (namespace in last ==> last[namespace] <= calls[n].now)
            && (if && calls[n].namespace == namespace
                   && (namespace in last ==> calls[n].now - last[namespace] >= minInterval)
                then |grants| == |before| + 1 && namespace in last' && last'[namespace] == calls[n].now
                else && |grants| == |before| && (namespace in last' <==> namespace in last)
                     && (namespace in last ==> last'[namespace] == last[namespace]))
  {
    LatestIsPast(calls, minInterval, namespace, n);
    GrantsStep(calls, minInterval, namespace, n + 1);
  }

  /** The grants among the first n calls are ahead of this choice: it is no larger, and if it is as large it ends
      no earlier than the latest grant. */
  ghost predicate Behind(calls: seq<Call>, minInterval: int, namespace: string, n: nat, chosen: set<nat>)
    requires n <= |calls| && forall i | i in chosen :: i < |calls|
  {
    var grants, last := Grants(calls, minInterval, namespace, n), LastAfter(calls, minInterval, n);
    && |chosen| <= |grants|
    && (|chosen| == |grants| && namespace in last ==> EndsAt(calls, chosen, last[namespace]))
  }

  /** The call at index n is chosen. */
  lemma ChosenStaysBehind(calls: seq<Call>, minInterval: int, namespace: string, n: nat, chosen: set<nat>)
    requires n < |calls| && Monotone(calls) && Spaced(calls, minInterval, namespace, n + 1, chosen) && n in chosen
    requires Behind(calls, minInterval, namespace, n, chosen - {n})
    ensures Behind(calls, minInterval, namespace, n + 1, chosen)
  {
    var before, last := Grants(calls, minInterval, namespace, n), LastAfter(calls, minInterval, n);
    GrantRule(calls, minInterval, namespace, n);
    ChosenCall(calls, minInterval, namespace, n, chosen, |before|, if namespace in last then last[namespace] else 0);
  }

  /** It is not. */
  lemma SkippedStaysBehind(calls: seq<Call>, minInterval: int, namespace: string, n: nat, chosen: set<nat>)
    requires n < |calls| && Monotone(calls) && Spaced(calls, minInterval, namespace, n, chosen)
    requires Behind(calls, minInterval, namespace, n, chosen)
    ensures Behind(calls, minInterval, namespace, n + 1, chosen)
  {
    GrantRule(calls, minInterval, namespace, n);
  }

  /** Greedy stays ahead: no spaced choice among the first n calls is larger than the grants, and one of
      equal size ends no earlier than the latest grant. */
  lemma {:induction false} GreedyStaysAhead(calls: seq<Call>, minInterval: int, namespace: string, n: nat,
                                            chosen: set<nat>)
    requires n <= |calls| && Monotone(calls) && Spaced(calls, minInterval, namespace, n, chosen)
    ensures Behind(calls, minInterval, namespace, n, chosen)
  {
    if n == 0 {
      assert chosen == {};
    } else {
      GreedyStaysAhead(calls, minInterval, namespace, n - 1, chosen - {n - 1});
      if n - 1 in chosen {
        ChosenStaysBehind(calls, minInterval, namespace, n - 1, chosen);
      } else {
        assert chosen - {n - 1} == chosen;
        SkippedStaysBehind(calls, minInterval, namespace, n - 1, chosen);
      }
    }
  }

  /** Greedy optimality: for any nondecreasing clock, any other namespaces in between and any minInterval, the
      grants of a namespace are pairwise at least minInterval apart and no larger set of its calls is. */
  lemma GreedyIsOptimal(calls: seq<Call>, minInterval: int, namespace: string)
    requires Monotone(calls)
    ensures Spaced(calls, minInterval, namespace, |calls|, Grants(calls, minInterval, namespace, |calls|))
    ensures forall chosen | Spaced(calls, minInterval, namespace, |calls|, chosen) ::
              |chosen| <= |Grants(calls, minInterval, namespace, |calls|)|
  {
    GrantsAreSpaced(calls, minInterval, namespace, |calls|);
    forall chosen | Spaced(calls, minInterval, namespace, |calls|, chosen)
      ensures |chosen| <= |Grants(calls, minInterval, namespace, |calls|)|
    {
      GreedyStaysAhead(calls, minInterval, namespace, |calls|, chosen);
    }
  }

  /** Calls of other namespaces never influence a grant. */
  lemma {:induction false} NamespacesAreIndependent(calls: seq<Call>, others: seq<Call>,
                                                    minInterval: int, namespace: string, n: nat)
    requires n <= |calls| == |others|
    requires forall i | 0 <= i < n && (calls[i].namespace == namespace || others[i].namespace == namespace) ::
               calls[i] == others[i]
    ensures Grants(calls, minInterval, namespace, n) == Grants(others, minInterval, namespace, n)
    ensures var a, b := LastAfter(calls, minInterval, n), LastAfter(others, minInterval, n);
            (namespace in a <==> namespace in b) && (namespace in a ==> a[namespace] == b[namespace])
  {
    if n > 0 {
      NamespacesAreIndependent(calls, others, minInterval, namespace, n - 1);
      GrantsStep(calls, minInterval, namespace, n);
      GrantsStep(others, minInterval, namespace, n);
    }
  }
}
