/** All-or-nothing reservation of a list of resources. */
module Admission {
  import opened Basics

  type Capacity = map<string, int>

  function Free(c: Capacity, item: string): int {
    if item in c then c[item] else 0
  }

  /** How often an item is asked for. */
  function Count(required: seq<string>, item: string): nat {
    if required == [] then 0
    else (if required[|required| - 1] == item then 1 else 0) + Count(required[..|required| - 1], item)
  }

  /** Everything asked for fits, and nothing asked for is made to fail. */
  ghost predicate Admissible(c: Capacity, required: seq<string>, failAt: Option<string>) {
    forall item | item in required :: Some(item) != failAt && Count(required, item) <= Free(c, item)
  }

  /** The same resources, each with what was asked for taken off. */
  ghost predicate Taken(before: Capacity, after: Capacity, required: seq<string>) {
    && after.Keys == before.Keys
    && forall item | item in before :: after[item] == before[item] - Count(required, item)
  }

  lemma CountNext(required: seq<string>, i: nat, item: string)
    requires i < |required|
    ensures Count(required[..i + 1], item) == Count(required[..i], item) + (if required[i] == item then 1 else 0)
  {
    assert required[..i + 1][..i] == required[..i];
  }

  lemma {:induction false} CountPrefix(required: seq<string>, i: nat, item: string)
    requires i <= |required|
    ensures Count(required[..i], item) <= Count(required, item)
    decreases |required| - i
  {
    if i == |required| {
      assert required[..i] == required;
    } else {
      CountNext(required, i, item);
      CountPrefix(required, i + 1, item);
    }
  }

  lemma {:induction false} CountNone(required: seq<string>, item: string)
    ensures Count(required, item) > 0 <==> item in required
  {
    if required != [] {
      CountNone(required[..|required| - 1], item);
      assert required == required[..|required| - 1] + [required[|required| - 1]];
    }
  }

  /** The pool of one admitting node. */
  class Pool {
    var capacity: Capacity

    constructor (initial: Capacity)
      ensures capacity == initial
    {
      capacity := initial;
    }

    /** admit: the token lists what was taken, in order; a refusal leaves every capacity as it was. */
    method Admit(required: seq<string>, failAt: Option<string>) returns (token: Option<seq<string>>)
      modifies this
      ensures token.Some? <==> Admissible(old(capacity), required, failAt)
      ensures token.Some? ==> token.value == required && Taken(old(capacity), capacity, required)
      ensures token.None? ==> capacity == old(capacity)
    {
      var taken := [];
      for i := 0 to |required|
        invariant taken == required[..i] && Taken(old(capacity), capacity, required[..i])
        invariant Admissible(old(capacity), required[..i], failAt)
      {
        var item := required[i];
        CountNext(required, i, item);
        if Some(item) == failAt || Free(capacity, item) < 1 {
          Refusal(old(capacity), required, i, failAt);
          Release(old(capacity), taken);
          return None;
        }
        NextFits(old(capacity), capacity, required, i, failAt);
        capacity := capacity[item := capacity[item] - 1];
        taken := taken + [item];
        assert required[..i + 1] == required[..i] + [item];
      }
      assert required[..|required|] == required;
      token := Some(taken);
    }

    /** The undo loop. */
    method Release(ghost before: Capacity, taken: seq<string>)
      requires Taken(before, capacity, taken) && forall item | item in taken :: item in before
      modifies this
      ensures capacity == before
    {
      for k := 0 to |taken|
        invariant capacity.Keys == before.Keys
        invariant forall item | item in before :: capacity[item] == before[item] - Count(taken, item) + Count(taken[..k], item)
      {
        var previous := taken[k];
        forall item ensures Count(taken[..k + 1], item) == Count(taken[..k], item) + (if previous == item then 1 else 0) {
          CountNext(taken, k, item);
        }
        capacity := capacity[previous := capacity[previous] + 1];
      }
      assert taken[..|taken|] == taken;
    }
  }

  /** Where the loop stops, the request does not fit. */
  lemma Refusal(before: Capacity, required: seq<string>, i: nat, failAt: Option<string>)
    requires i < |required|
    requires Some(required[i]) == failAt || Free(before, required[i]) < Count(required[..i], required[i]) + 1
    ensures !Admissible(before, required, failAt)
    ensures Admissible(before, required[..i], failAt) ==> forall item | item in required[..i] :: item in before
  {
    CountNext(required, i, required[i]);
    CountPrefix(required, i + 1, required[i]);
    assert required[i] in required;
    forall item | item in required[..i] && Admissible(before, required[..i], failAt)
      ensures item in before
    {
      CountNone(required[..i], item);
    }
  }

  lemma NextFits(before: Capacity, now: Capacity, required: seq<string>, i: nat, failAt: Option<string>)
    requires i < |required| && Taken(before, now, required[..i]) && Admissible(before, required[..i], failAt)
    requires Some(required[i]) != failAt && Free(now, required[i]) >= 1
    ensures required[i] in now && Admissible(before, required[..i + 1], failAt)
    ensures Taken(before, now[required[i] := now[required[i]] - 1], required[..i + 1])
  {
    forall item ensures Count(required[..i + 1], item) == Count(required[..i], item) + (if required[i] == item then 1 else 0) {
      CountNext(required, i, item);
    }
    assert required[..i + 1] == required[..i] + [required[i]];
  }
}
