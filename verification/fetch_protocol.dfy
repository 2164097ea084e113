/** The console's fetch hook as a pure transition system: one question asked again and again,
    its answers landing in any order. */
module FetchProtocol {
  import opened Options

  /** What an answer carries; two answers are only ever compared for equality. */
  type Data(==, !new, 0)

  /** One dependency; `==` is the language's `Object.is`. */
  type Dep(==, !new, 0)

  datatype ApiError = ApiError(message: string, status: int, code: string)

  /** What a rejected request threw: an error of the API's own, or anything else. */
  datatype Thrown = FromApi(error: ApiError) | Foreign

  function AsApiError(thrown: Thrown): ApiError {
    match thrown
    case FromApi(error) => error
    case Foreign => ApiError("The control plane could not be reached.", 0, "NETWORK")
  }

  datatype State = Loading | Ready(data: Data) | Failed(error: ApiError)

  /** What an effect run closes over: the nonce and dependencies of its render. */
  datatype Question = Question(nonce: nat, deps: seq<Dep>)

  datatype Hook = Hook(
    state: State, nonce: nat, refreshing: bool, refreshError: Option<ApiError>,
    alive: bool, seen: Option<Question>, held: State, seqNo: nat)

  const FIRST := Hook(Loading, 0, false, None, true, None, Loading, 0)

  /** Only the newest response may replace the shown answer, and only while mounted. */
  predicate IsCurrentResponse(mounted: bool, response: nat, latest: nat) {
    mounted && response == latest
  }

  function Render(h: Hook): Hook {
    h.(held := h.state)
  }

  function Reload(h: Hook): Hook {
    h.(nonce := h.nonce + 1)
  }

  /** Whether an effect run asks the same question again over an answer on screen. */
  predicate Reloading(h: Hook, q: Question) {
    h.seen.Some? && h.seen.value.deps == q.deps && h.seen.value.nonce != q.nonce && h.held.Ready?
  }

  function Effect(h: Hook, q: Question): Hook {
    var asked := h.(alive := true, seen := Some(q), seqNo := h.seqNo + 1, refreshError := None);
    if Reloading(h, q) then asked.(refreshing := true) else asked.(state := Loading)
  }

  function Cleanup(h: Hook): Hook {
    h.(alive := false)
  }

  datatype Reply = Good(data: Data) | Bad(thrown: Thrown)

  /** The reply to request `mine`, which was sent as a reload or not. */
  function Land(h: Hook, mine: nat, reloading: bool, reply: Reply): Hook {
    if !IsCurrentResponse(h.alive, mine, h.seqNo) then h
    else
      match reply
      case Good(data) => h.(state := Ready(data), refreshing := false)
      case Bad(thrown) =>
        if reloading then h.(refreshing := false, refreshError := Some(AsApiError(thrown)))
        else h.(refreshing := false, state := Failed(AsApiError(thrown)))
  }
}
