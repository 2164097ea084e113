/** The hook itself: refs and state setters updated in place, one method for each callback. */
module UseApi {
  import opened Options
  import P = FetchProtocol
  import opened FetchProtocol

  class FetchHook {
    var state: State
    var nonce: nat
    var refreshing: bool
    var refreshError: Option<ApiError>
    var alive: bool
    var seen: Option<Question>
    var held: State
    var seqNo: nat

    function Core(): Hook
      reads this
    {
      Hook(state, nonce, refreshing, refreshError, alive, seen, held, seqNo)
    }

    constructor ()
      ensures Core() == FIRST
    {
      state, nonce, refreshing, refreshError := Loading, 0, false, None;
      alive, seen, held, seqNo := true, None, Loading, 0;
    }

    method Render()
      modifies this
      ensures Core() == P.Render(old(Core()))
    {
      held := state;
    }

    method Reload()
      modifies this
      ensures Core() == P.Reload(old(Core()))
    {
      nonce := nonce + 1;
    }

    method SameDeps(before: seq<Dep>, deps: seq<Dep>) returns (same: bool)
      ensures same <==> before == deps
    {
      if |before| != |deps| { return false; }
      for i := 0 to |deps|
        invariant forall k :: 0 <= k < i ==> before[k] == deps[k]
      {
        if before[i] != deps[i] { return false; }
      }
      return true;
    }

    /** One effect run; what it returns is what the replies' callbacks close over. */
    method Effect(q: Question) returns (mine: nat, reloading: bool)
      modifies this
      ensures Core() == P.Effect(old(Core()), q)
      ensures mine == Core().seqNo && reloading == Reloading(old(Core()), q)
    {
      alive := true;
      var before := seen;
      var sameDeps := false;
      if before.Some? { sameDeps := SameDeps(before.value.deps, q.deps); }
      seen := Some(q);
      reloading := sameDeps && before.value.nonce != q.nonce && held.Ready?;
      seqNo := seqNo + 1;
      mine := seqNo;
      if reloading {
        refreshing := true;
        refreshError := None;
      } else {
        state := Loading;
        refreshError := None;
      }
    }

    method Cleanup()
      modifies this
      ensures Core() == P.Cleanup(old(Core()))
    {
      alive := false;
    }

    method Resolve(mine: nat, reloading: bool, data: Data)
      modifies this
      ensures Core() == Land(old(Core()), mine, reloading, Good(data))
    {
      if !IsCurrentResponse(alive, mine, seqNo) { return; }
      state := Ready(data);
      refreshing := false;
    }

    method Reject(mine: nat, reloading: bool, thrown: Thrown)
      modifies this
      ensures Core() == Land(old(Core()), mine, reloading, Bad(thrown))
    {
      if !IsCurrentResponse(alive, mine, seqNo) { return; }
      refreshing := false;
      if reloading {
        refreshError := Some(AsApiError(thrown));
      } else {
        state := Failed(AsApiError(thrown));
      }
    }
  }
}
