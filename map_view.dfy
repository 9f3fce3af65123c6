/**
 * The map component's click handling: the two pieces of render state `forecast` and
 * `error`, the transitions a click makes once its fetch has settled, the ok-check
 * that turns a reply into data or a failure, and which parts of the page render
 * for a given state.
 */
module MapView {
  import opened Wrappers

  /** The payload the component expects from the forecast endpoint. */
  datatype ForecastData = ForecastData(temperature: real, lat: real, lon: real, suggestions: seq<string>)

  /**
   * A clicked point in map coordinates. Its value only feeds the request URL, which is
   * not modelled; the transitions look only at whether a coordinate was found.
   */
  datatype Coordinate = Coordinate(x: real, y: real)

  /** What `response.json()` yields: the decoded payload, or a parse failure. */
  datatype JsonBody = Decoded(data: ForecastData) | Malformed(reason: string)

  /** How the request of one click settles: the fetch itself rejects, or a reply arrives. */
  datatype FetchReply = NetworkError(reason: string) | Reply(ok: bool, body: JsonBody)

  /** The message thrown for a reply whose status is not ok. */
  const NotOkMessage := "Failed to fetch forecast"

  /** The message the component shows for every failed fetch. */
  const FailureMessage := "Failed to fetch forecast."

  /**
   * The request helper: a reply that is not ok becomes a failure before its body is
   * looked at; an ok reply yields its decoded body or the parse failure.
   */
  function GetForecast(reply: FetchReply): (r: Result<ForecastData, string>)
    ensures r.Success? <==> reply.Reply? && reply.ok && reply.body.Decoded?
    ensures r.Success? ==> r.value == reply.body.data
    ensures reply.Reply? && !reply.ok ==> r == Failure(NotOkMessage)
  {
    match reply
    case NetworkError(reason) => Failure(reason)
    case Reply(ok, body) =>
      if !ok then Failure(NotOkMessage)
      else
        match body
        case Decoded(data) => Success(data)
        case Malformed(reason) => Failure(reason)
  }

  /** The component's render state; both parts start out null. */
  datatype UiState = UiState(forecast: Option<ForecastData>, error: Option<string>)

  const Initial := UiState(None, None)

  function SetForecast(s: UiState, f: Option<ForecastData>): UiState {
    s.(forecast := f)
  }

  function SetError(s: UiState, e: Option<string>): UiState {
    s.(error := e)
  }

  /**
   * One click, taken as one step: no coordinate changes nothing; a successful fetch
   * sets the forecast and then clears the error; a failed one sets the message and
   * then clears the forecast.
   */
  function HandleClick(s: UiState, coord: Option<Coordinate>, reply: FetchReply): (r: UiState)
    ensures coord.None? ==> r == s
    ensures coord.Some? && GetForecast(reply).Success? ==>
              r == UiState(Some(GetForecast(reply).value), None)
    ensures coord.Some? && GetForecast(reply).Failure? ==> r == UiState(None, Some(FailureMessage))
  {
    if coord.None? then s
    else
      match GetForecast(reply)
      case Success(data) => SetError(SetForecast(s, Some(data)), None)
      case Failure(_) => SetForecast(SetError(s, Some(FailureMessage)), None)
  }

  /** The states clicks can lead to: never both parts set, and the only message is the failure one. */
  predicate Consistent(s: UiState) {
    !(s.forecast.Some? && s.error.Some?) &&
    (s.error.Some? ==> s.error.value == FailureMessage)
  }

  /** A click as the handler sees it: the coordinate under the cursor and how its fetch settles. */
  datatype Click = Click(coord: Option<Coordinate>, reply: FetchReply)

  /** The state after a series of clicks, each handled to completion before the next. */
  function Run(s: UiState, clicks: seq<Click>): UiState {
    if clicks == [] then s
    else
      var last := clicks[|clicks| - 1];
      HandleClick(Run(s, clicks[..|clicks| - 1]), last.coord, last.reply)
  }

  /** Every sequence of clicks keeps the state consistent. */
  lemma {:induction false} RunKeepsConsistent(s: UiState, clicks: seq<Click>)
    requires Consistent(s)
    ensures Consistent(Run(s, clicks))
  {
    if clicks != [] {
      RunKeepsConsistent(s, clicks[..|clicks| - 1]);
    }
  }

  /** From the initial state, forecast and error are never both set. */
  lemma NeverBothSet(clicks: seq<Click>)
    ensures !(Run(Initial, clicks).forecast.Some? && Run(Initial, clicks).error.Some?)
  {
    RunKeepsConsistent(Initial, clicks);
  }

  /**
   * The last click that has a coordinate decides the state: clicks after it that
   * miss the map change nothing, and what came before it is overwritten.
   */
  lemma {:induction false} LastResolvedClickDecides(s: UiState, before: seq<Click>, c: Click, after: seq<Click>)
    requires c.coord.Some?
    requires forall k :: 0 <= k < |after| ==> after[k].coord.None?
    ensures Run(s, before + [c] + after) == HandleClick(Initial, c.coord, c.reply)
  {
    var all := before + [c] + after;
    if after == [] {
      assert all[..|all| - 1] == before;
    } else {
      var after' := after[..|after| - 1];
      assert all[..|all| - 1] == before + [c] + after';
      LastResolvedClickDecides(s, before, c, after');
    }
  }

  /** A reply whose status is not ok always takes the failure transition, whatever its body. */
  lemma NotOkAlwaysFails(s: UiState, coord: Option<Coordinate>, body: JsonBody)
    requires coord.Some?
    ensures HandleClick(s, coord, Reply(false, body)) == UiState(None, Some(FailureMessage))
  {
  }

  /** Only an ok reply with a decodable body reaches the success transition. */
  lemma OnlyOkSucceeds(s: UiState, coord: Option<Coordinate>, reply: FetchReply)
    requires coord.Some?
    requires HandleClick(s, coord, reply).forecast.Some?
    ensures reply.Reply? && reply.ok && reply.body.Decoded?
    ensures HandleClick(s, coord, reply).forecast == Some(reply.body.data)
  {
  }

  /** One list item of the suggestions list, keyed by its position. */
  datatype ListItem = ListItem(key: nat, text: string)

  /** The forecast panel: heading coordinates, temperature and the suggestions list. */
  datatype Panel = Panel(lat: real, lon: real, temperature: real, items: seq<ListItem>)

  /** What the component renders below the map. */
  datatype View = View(errorText: Option<string>, panel: Option<Panel>)

  /** `suggestions.map((s, i) => <li key={i}>{s}</li>)`: one item per suggestion, in order. */
  function ListItems(suggestions: seq<string>): (items: seq<ListItem>)
    ensures |items| == |suggestions|
    ensures forall i :: 0 <= i < |items| ==> items[i].key == i && items[i].text == suggestions[i]
  {
    if suggestions == [] then []
    else
      var n := |suggestions| - 1;
      ListItems(suggestions[..n]) + [ListItem(n, suggestions[n])]
  }

  /** A JavaScript string in a `&&` guard: null and the empty string are falsy. */
  predicate Truthy(e: Option<string>) {
    e.Some? && e.value != ""
  }

  /** The component's markup for a state: `{error && <p>…}` and `{forecast && <div>…}`. */
  function Render(s: UiState): (v: View)
    ensures v.errorText.Some? <==> Truthy(s.error)
    ensures v.errorText.Some? ==> v.errorText == s.error
    ensures v.panel.Some? <==> s.forecast.Some?
    ensures v.panel.Some? ==>
              var d := s.forecast.value;
              var p := v.panel.value;
              p.lat == d.lat && p.lon == d.lon && p.temperature == d.temperature &&
              p.items == ListItems(d.suggestions) &&
              |p.items| == |d.suggestions| &&
              forall i :: 0 <= i < |p.items| ==> p.items[i].text == d.suggestions[i]
  {
    View(
      if Truthy(s.error) then s.error else None,
      match s.forecast
      case None => None
      case Some(d) => Some(Panel(d.lat, d.lon, d.temperature, ListItems(d.suggestions))))
  }

  /**
   * In every state clicks lead to, the error paragraph shows exactly when an error is
   * set and the panel exactly when a forecast is set, so never both.
   */
  lemma RenderShowsState(s: UiState)
    requires Consistent(s)
    ensures Render(s).errorText.Some? <==> s.error.Some?
    ensures Render(s).panel.Some? <==> s.forecast.Some?
    ensures !(Render(s).errorText.Some? && Render(s).panel.Some?)
  {
  }

  /** After a failed fetch the page shows the failure message and no forecast panel. */
  lemma FailureRendersMessageOnly(s: UiState, coord: Option<Coordinate>, reply: FetchReply)
    requires coord.Some?
    requires GetForecast(reply).Failure?
    ensures Render(HandleClick(s, coord, reply)) == View(Some(FailureMessage), None)
  {
  }

  /** The component: its two state fields and the click handler that overwrites them. */
  class MapView {
    var forecast: Option<ForecastData>
    var error: Option<string>

    function State(): UiState
      reads this
    {
      UiState(forecast, error)
    }

    constructor ()
      ensures State() == Initial
    {
      forecast := None;
      error := None;
    }

    /** The click handler, with the fetch's outcome given as `reply`. */
    method OnClick(coord: Option<Coordinate>, reply: FetchReply)
      modifies this
      ensures State() == HandleClick(old(State()), coord, reply)
      ensures Consistent(old(State())) ==> Consistent(State())
    {
      if coord.None? {
        return;
      }
      var result := GetForecast(reply);
      match result {
        case Success(data) =>
          forecast := Some(data);
          error := None;
        case Failure(_) =>
          error := Some(FailureMessage);
          forecast := None;
      }
    }
  }
}
