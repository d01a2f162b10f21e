/** The one polled HTTP resource: `GET /timer_state` returns the stored snapshot, anything else 404. */
module PollEndpoint {
  import opened SharedState

  const TimerStatePath := "/timer_state"

  datatype Body = Json(state: TimerSnapshot) | Plain(text: string)

  datatype Response = Response(status: int, headers: seq<(string, string)>, body: Body)

  /** The answer to a GET of `path` while the store holds `state` (`TimerRequestHandler.do_GET`). */
  function Respond(path: string, state: TimerSnapshot): (r: Response)
    ensures r.status == 200 || r.status == 404
    ensures r.status == 200 <==> path == TimerStatePath
    ensures r.status == 200 ==>
      && r.body == Json(state)
      && ("Content-type", "application/json") in r.headers
      && ("Access-Control-Allow-Origin", "*") in r.headers
    ensures r.status == 404 ==> r.body == Plain("404 Not Found") && r.headers == []
  {
    if path == TimerStatePath then
      Response(200, [("Content-type", "application/json"), ("Access-Control-Allow-Origin", "*")], Json(state))
    else
      Response(404, [], Plain("404 Not Found"))
  }

  /** Serving one request: the snapshot is copied out of the store, then answered. */
  method DoGet(path: string, store: Store) returns (r: Response)
    ensures r.status == 200 <==> path == TimerStatePath
    ensures r.status == 200 ==> r.body == Json(store.snapshot)
    ensures r.status != 200 ==> r.status == 404
    ensures r == Respond(path, store.snapshot)
  {
    var state := store.Read();
    r := Respond(path, state);
  }
}
