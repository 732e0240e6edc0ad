/** The per-user rate limiter in front of the `m!` auto-replies: a map from
    user id to the time (in milliseconds) of that user's last accepted trigger.
    Administrators pass without being recorded. */
module Cooldown {

  type UserId = string

  /** The cooldown window, in milliseconds. */
  const COOLDOWN_MS: nat := 10000

  datatype Decision = Allowed | Denied(waitMs: nat)

  datatype GateResult = GateResult(decision: Decision, after: map<UserId, nat>)

  /** One decision of the gate on the map `last` as it stands. */
  function Step(last: map<UserId, nat>, user: UserId, isAdmin: bool, now: nat): (r: GateResult)
    // denied exactly when a non-admin's last use is less than a window ago
    ensures r.decision.Denied? <==> !isAdmin && user in last && now < last[user] + COOLDOWN_MS
    // a denial reports the time left until the window closes, and records nothing
    ensures r.decision.Denied? ==>
      && r.after == last
      && r.decision.waitMs == last[user] + COOLDOWN_MS - now
      && 0 < r.decision.waitMs
      && (now >= last[user] ==> r.decision.waitMs <= COOLDOWN_MS)
    // admins pass and leave the map alone
    ensures isAdmin ==> r.after == last
    // an accepted non-admin is recorded at `now`
    ensures !isAdmin && r.decision.Allowed? ==> user in r.after && r.after[user] == now
    // nobody else's entry changes
    ensures forall v :: v != user ==> (v in r.after <==> v in last)
    ensures forall v :: v != user && v in last ==> r.after[v] == last[v]
    // entries never disappear or move backwards in time
    ensures forall v :: v in last ==> v in r.after && r.after[v] >= last[v]
  {
    if isAdmin then GateResult(Allowed, last)
    else if user in last && now < last[user] + COOLDOWN_MS then
      GateResult(Denied(last[user] + COOLDOWN_MS - now), last)
    else GateResult(Allowed, last[user := now])
  }

  /** A trigger attempt as the gate sees it. */
  datatype Attempt = Attempt(user: UserId, isAdmin: bool, now: nat)

  /** The map after a sequence of attempts, processed one at a time. */
  function Replay(last: map<UserId, nat>, attempts: seq<Attempt>): map<UserId, nat>
    decreases |attempts|
  {
    if attempts == [] then last
    else
      var a := attempts[|attempts| - 1];
      Step(Replay(last, attempts[..|attempts| - 1]), a.user, a.isAdmin, a.now).after
  }

  /** The decision on attempt `j` of a sequence. */
  function DecisionAt(last: map<UserId, nat>, attempts: seq<Attempt>, j: nat): Decision
    requires j < |attempts|
  {
    var a := attempts[j];
    Step(Replay(last, attempts[..j]), a.user, a.isAdmin, a.now).decision
  }

  lemma ReplayNext(last: map<UserId, nat>, attempts: seq<Attempt>, j: nat)
    requires j < |attempts|
    ensures Replay(last, attempts[..j + 1])
         == Step(Replay(last, attempts[..j]), attempts[j].user, attempts[j].isAdmin, attempts[j].now).after
  {
    assert attempts[..j + 1][..j] == attempts[..j];
  }

  /** Once recorded, a user's entry stays, and never goes back in time. */
  lemma {:induction false} EntryPersists(last: map<UserId, nat>, attempts: seq<Attempt>, u: UserId, i: nat, j: nat)
    requires i <= j <= |attempts|
    requires u in Replay(last, attempts[..i])
    ensures u in Replay(last, attempts[..j])
    ensures Replay(last, attempts[..j])[u] >= Replay(last, attempts[..i])[u]
    decreases j - i
  {
    if i < j {
      ReplayNext(last, attempts, i);
      EntryPersists(last, attempts, u, i + 1, j);
    }
  }

  /** The rate limit itself: two accepted non-admin triggers by one user are
      at least a full window apart, however the attempts interleave and
      whatever the clock does. */
  lemma AcceptedTriggersSpaced(last: map<UserId, nat>, attempts: seq<Attempt>, i: nat, j: nat)
    requires i < j < |attempts|
    requires attempts[i].user == attempts[j].user
    requires !attempts[i].isAdmin && !attempts[j].isAdmin
    requires DecisionAt(last, attempts, i) == Allowed && DecisionAt(last, attempts, j) == Allowed
    ensures attempts[j].now >= attempts[i].now + COOLDOWN_MS
  {
    var u := attempts[i].user;
    ReplayNext(last, attempts, i);
    assert Replay(last, attempts[..i + 1])[u] == attempts[i].now;
    EntryPersists(last, attempts, u, i + 1, j);
  }

  /** An administrator is never denied, at any point of any sequence. */
  lemma AdminNeverDenied(last: map<UserId, nat>, attempts: seq<Attempt>, j: nat)
    requires j < |attempts| && attempts[j].isAdmin
    ensures DecisionAt(last, attempts, j) == Allowed
  {
  }

  /** A second trigger by the same user inside the window is denied, and the
      wait reported is what is left of the window. */
  lemma RetriggerInsideWindow(last: map<UserId, nat>, u: UserId, t1: nat, t2: nat)
    requires Step(last, u, false, t1).decision == Allowed
    requires t1 <= t2 < t1 + COOLDOWN_MS
    ensures var m := Step(last, u, false, t1).after;
      Step(m, u, false, t2) == GateResult(Denied(t1 + COOLDOWN_MS - t2), m)
  {
  }

  /** `wide` is `narrow` with one more, already expired entry for `u`. */
  ghost predicate SameButExpired(wide: map<UserId, nat>, narrow: map<UserId, nat>, u: UserId, t: nat)
  {
    wide == narrow || (u in wide && wide[u] == t && narrow == wide - {u})
  }

  lemma StepOnExpired(wide: map<UserId, nat>, narrow: map<UserId, nat>, u: UserId, t: nat, a: Attempt)
    requires SameButExpired(wide, narrow, u, t)
    requires a.now >= t + COOLDOWN_MS
    ensures Step(narrow, a.user, a.isAdmin, a.now).decision == Step(wide, a.user, a.isAdmin, a.now).decision
    ensures SameButExpired(Step(wide, a.user, a.isAdmin, a.now).after, Step(narrow, a.user, a.isAdmin, a.now).after, u, t)
  {
  }

  lemma {:induction false} ReplayOnExpired(last: map<UserId, nat>, u: UserId, attempts: seq<Attempt>, j: nat)
    requires u in last && j <= |attempts|
    requires forall k :: 0 <= k < |attempts| ==> attempts[k].now >= last[u] + COOLDOWN_MS
    ensures SameButExpired(Replay(last, attempts[..j]), Replay(last - {u}, attempts[..j]), u, last[u])
  {
    if j == 0 {
      assert attempts[..0] == [];
    } else {
      ReplayOnExpired(last, u, attempts, j - 1);
      ReplayNext(last, attempts, j - 1);
      ReplayNext(last - {u}, attempts, j - 1);
      StepOnExpired(Replay(last, attempts[..j - 1]), Replay(last - {u}, attempts[..j - 1]), u, last[u], attempts[j - 1]);
    }
  }

  /** Deleting an entry once its window has passed (what the expiry timer
      does) changes no later decision of the gate. */
  lemma ExpiryUnobservable(last: map<UserId, nat>, u: UserId, attempts: seq<Attempt>, j: nat)
    requires u in last && j < |attempts|
    requires forall k :: 0 <= k < |attempts| ==> attempts[k].now >= last[u] + COOLDOWN_MS
    ensures DecisionAt(last - {u}, attempts, j) == DecisionAt(last, attempts, j)
  {
    ReplayOnExpired(last, u, attempts, j);
    StepOnExpired(Replay(last, attempts[..j]), Replay(last - {u}, attempts[..j]), u, last[u], attempts[j]);
  }

  /** The gate as the bot holds it: one mutable map, consulted and updated
      on every trigger that matched a registered keyword. */
  class CooldownGate {
    var lastUse: map<UserId, nat>

    constructor ()
      ensures lastUse == map[]
    {
      lastUse := map[];
    }

    method Allow(user: UserId, isAdmin: bool, now: nat) returns (d: Decision)
      modifies this
      ensures GateResult(d, lastUse) == Step(old(lastUse), user, isAdmin, now)
    {
      d := Allowed;
      if !isAdmin {
        if user in lastUse {
          var expirationTime := lastUse[user] + COOLDOWN_MS;
          if now < expirationTime {
            d := Denied(expirationTime - now);
            return;
          }
        }
        lastUse := lastUse[user := now];
      }
    }
  }
}
