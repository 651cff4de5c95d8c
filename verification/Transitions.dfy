/**
 The per-ID transition lock, the finalizing counter and the removal marks
 (internal/app/transition.go). Each method is one span of the registry's mu.
 */
module Transitions {

  import opened Wrappers

  class TransitionClaim {
    const ids: set<string>
    var released: bool

    constructor (ids: set<string>)
      ensures this.ids == ids && !released
    {
      this.ids := ids;
      released := false;
    }

    predicate Holds(id: string) { id in ids }
  }

  class JobTransitions {
    var held: set<string>
    var removed: set<Job>
    var finalizing: map<string, nat>
    ghost var claims: set<TransitionClaim>

    /** Every held ID belongs to exactly one claim not yet released, and an ID is
        counted only while a finalizer is committing it. */
    ghost predicate Valid()
      reads this, claims
    {
      && (forall id | id in finalizing :: finalizing[id] > 0)
      && (forall c | c in claims && !c.released :: c.ids <= held)
      && (forall id | id in held :: exists c :: c in claims && !c.released && id in c.ids)
      && (forall c, d | c in claims && d in claims && !c.released && !d.released && c != d :: c.ids !! d.ids)
    }

    function Count(id: string): (n: nat)
      reads this
    {
      if id in finalizing then finalizing[id] else 0
    }

    constructor ()
      ensures Valid() && held == {} && removed == {} && finalizing == map[] && claims == {}
    {
      held, removed, finalizing, claims := {}, {}, map[], {};
    }

    method BeginFinalize(id: string)
      requires Valid()
      modifies this`finalizing
      ensures Valid() && Count(id) == old(Count(id)) + 1
      ensures forall other :: other != id ==> Count(other) == old(Count(other))
    {
      finalizing := finalizing[id := Count(id) + 1];
    }

    /** The call beginFinalize returned. */
    method EndFinalize(id: string)
      requires Valid() && Count(id) > 0
      modifies this`finalizing
      ensures Valid() && Count(id) == old(Count(id)) - 1
      ensures forall other :: other != id ==> Count(other) == old(Count(other))
    {
      var n := finalizing[id] - 1;
      finalizing := if n <= 0 then finalizing - {id} else finalizing[id := n];
    }

    method MarkRemoved(j: Job)
      requires Valid()
      modifies this`removed
      ensures Valid() && removed == old(removed) + {j}
    {
      removed := removed + {j};
    }

    /** Claims every one of ids no one holds and no finalizer is committing; never waits. */
    method TryAcquire(ids: seq<string>) returns (c: TransitionClaim)
      requires Valid()
      modifies this`held, this`claims
      ensures Valid() && fresh(c) && !c.released
      ensures c.ids == set id | id in ids && id !in old(held) && Count(id) == 0
      ensures held == old(held) + c.ids && claims == old(claims) + {c}
    {
      var got := Claimable(ids);
      held := held + got;
      c := new TransitionClaim(got);
      claims := claims + {c};
      forall id | id in held ensures exists d :: d in claims && !d.released && id in d.ids {
        if id in got {
          assert c in claims && !c.released && id in c.ids;
        } else {
          var d :| d in old(claims) && !d.released && id in d.ids;
          assert d in claims;
        }
      }
    }

    /** tryAcquire's loop. */
    method Claimable(ids: seq<string>) returns (got: set<string>)
      ensures got == set id | id in ids && id !in held && Count(id) == 0
    {
      got := {};
      for i := 0 to |ids|
        invariant got == set id | id in ids[..i] && id !in held && Count(id) == 0
      {
        var id := ids[i];
        assert ids[..i + 1] == ids[..i] + [id];
        if Count(id) == 0 && id !in held && id !in got {
          got := got + {id};
        }
      }
      assert ids[..|ids|] == ids;
    }

    /** A retry's claim on its one ID: held exactly when no one else holds it and no
        finalizer is committing it. */
    method ClaimForRetry(id: string) returns (c: TransitionClaim, held_: bool)
      requires Valid()
      modifies this`held, this`claims
      ensures Valid() && fresh(c) && !c.released && claims == old(claims) + {c}
      ensures held_ == c.Holds(id) && (held_ <==> id !in old(held) && Count(id) == 0)
      ensures held == if held_ then old(held) + {id} else old(held)
    {
      c := TryAcquire([id]);
      held_ := c.Holds(id);
    }

    /** One round of acquire: claims id if it is free, finalizing or not. */
    method Claim(id: string) returns (c: TransitionClaim?)
      requires Valid()
      modifies this`held, this`claims
      ensures Valid() && (c == null <==> id in old(held))
      ensures c == null ==> held == old(held) && claims == old(claims)
      ensures c != null ==> fresh(c) && !c.released && c.ids == {id}
      ensures c != null ==> held == old(held) + {id} && claims == old(claims) + {c}
    {
      if id in held {
        return null;
      }
      held := held + {id};
      c := new TransitionClaim({id});
      claims := claims + {c};
    }

    /** Frees exactly what the claim holds. A second release reports the panic and
        frees nothing, so it cannot free an ID a later claim holds. */
    method Release(c: TransitionClaim) returns (panics: bool)
      requires Valid() && c in claims
      modifies this`held, c`released
      ensures Valid() && panics == old(c.released) && c.released
      ensures panics ==> held == old(held)
      ensures !panics ==> held == old(held) - c.ids
      ensures forall d | d in claims && d != c && !d.released :: d.ids <= held
    {
      panics := c.released;
      if panics {
        return;
      }
      c.released := true;
      held := held - c.ids;
    }
  }
}
