/**
 * `complete_context`: the display parameters every dashboard page shares.
 * The time window (`duration`, in hours) and the graph style are read from
 * the query string and remembered in the user's session.
 */
module Display {
  import opened Wrappers
  import opened Text

  /** Session default, in hours. */
  const DefaultDuration := 24

  /** One week, the longest window a request may ask for. */
  const MaxDuration := 24 * 7

  const Sunburst := "sunburst"
  const Circles := "circles"

  /** Entries `complete_context` adds to a page's context (`from_date` is left out). */
  datatype DisplayContext = DisplayContext(drawFunc: string, drawElt: string, date: string, timeRange: int)

  /** A requested duration, capped at one week. */
  function ClampDuration(requested: int): (d: int)
    ensures d <= MaxDuration
    ensures d == if requested < MaxDuration then requested else MaxDuration
  {
    if requested > MaxDuration then MaxDuration else requested
  }

  /** The duration in force: the capped request if any, else the session's, else the default. */
  function EffectiveDuration(param: Option<int>, stored: Option<int>): (d: int)
    ensures param.Some? ==> d == ClampDuration(param.value) && d <= MaxDuration
    ensures param.None? ==> d == stored.GetOr(DefaultDuration)
  {
    match param
    case Some(requested) => ClampDuration(requested)
    case None => stored.GetOr(DefaultDuration)
  }

  /** Hours up to a day, whole days beyond (Python 2 integer division). */
  function DateLabel(d: int): string {
    if d <= 24 then Decimal(d) + "h" else Decimal(d / 24) + "d"
  }

  /** The label reads back: its unit letter says hours or days and its number is `d` or `d / 24`. */
  lemma DateLabelReadsBack(d: int)
    ensures |DateLabel(d)| >= 2
    ensures DateLabel(d)[|DateLabel(d)| - 1] == (if d <= 24 then 'h' else 'd')
    ensures ParseInt(DateLabel(d)[..|DateLabel(d)| - 1]) == Some(if d <= 24 then d else d / 24)
  {
    var n := if d <= 24 then d else d / 24;
    var shown := DateLabel(d);
    assert shown[..|shown| - 1] == Decimal(n);
    DecimalRoundTrip(n);
  }

  /** The graph style: a recognised parameter, otherwise the sunburst. */
  function GraphChoice(param: Option<string>): (g: string)
    ensures g == Sunburst || g == Circles
    ensures g == Circles <==> param == Some(Circles)
  {
    match param
    case Some(requested) => if requested == Sunburst || requested == Circles then requested else Sunburst
    case None => Sunburst
  }

  /** Context entries for a duration and a graph style. */
  function ContextFor(d: int, graph: string): (ctx: DisplayContext)
    ensures ctx.timeRange == d * 3600
    ensures (ctx.drawFunc, ctx.drawElt) == (if graph == Sunburst then ("draw_sunburst", "path") else ("draw_circle", "circle"))
    ensures ctx.date == DateLabel(d)
  {
    var draw := if graph == Sunburst then ("draw_sunburst", "path") else ("draw_circle", "circle");
    DisplayContext(draw.0, draw.1, DateLabel(d), d * 3600)
  }

  /** A window never exceeds one week once set through a request parameter. */
  lemma TimeRangeBounded(param: int, stored: Option<int>)
    ensures ContextFor(EffectiveDuration(Some(param), stored), Sunburst).timeRange <= MaxDuration * 3600
    ensures ContextFor(EffectiveDuration(Some(param), stored), Circles).timeRange <= MaxDuration * 3600
  {
  }

  /** The per-user session entries `complete_context` reads and writes. */
  class Session {
    var duration: Option<int>
    var graph: Option<string>

    constructor ()
      ensures duration == None && graph == None
    {
      duration := None;
      graph := None;
    }

    /**
     * Computes the display entries of a page.  With Elasticsearch disabled
     * nothing is added and the session is untouched.  A `duration` parameter
     * is capped and remembered; without one the remembered value is used.  A
     * `graph` parameter is normalised and remembered, but without one the
     * sunburst is drawn whatever the session remembers.
     */
    method CompleteContext(useElasticsearch: bool, durationParam: Option<int>, graphParam: Option<string>)
      returns (ctx: Option<DisplayContext>)
      modifies this
      ensures !useElasticsearch ==> ctx == None && duration == old(duration) && graph == old(graph)
      ensures useElasticsearch ==>
        && duration == (if durationParam.Some? then Some(ClampDuration(durationParam.value)) else old(duration))
        && graph == (if graphParam.Some? then Some(GraphChoice(graphParam)) else old(graph))
        && ctx == Some(ContextFor(EffectiveDuration(durationParam, old(duration)), GraphChoice(graphParam)))
    {
      if !useElasticsearch {
        return None;
      }
      var d: int;
      if durationParam.Some? {
        d := durationParam.value;
        if d > 24 * 7 {
          d := 24 * 7;
        }
        duration := Some(d);
      } else {
        d := duration.GetOr(DefaultDuration);
      }
      var date := if d <= 24 then Decimal(d) + "h" else Decimal(d / 24) + "d";
      var g: string;
      if graphParam.Some? {
        g := graphParam.value;
        if !(g == Sunburst || g == Circles) {
          g := Sunburst;
        }
        graph := Some(g);
      } else {
        g := Sunburst;
      }
      var drawFunc, drawElt;
      if g == Sunburst {
        drawFunc, drawElt := "draw_sunburst", "path";
      } else {
        drawFunc, drawElt := "draw_circle", "circle";
      }
      ctx := Some(DisplayContext(drawFunc, drawElt, date, d * 3600));
    }
  }

  /** A duration remembered by one request is the one a later request without the parameter uses. */
  lemma RememberedDurationReused(requested: int)
    ensures EffectiveDuration(None, Some(ClampDuration(requested))) == EffectiveDuration(Some(requested), None)
  {
  }
}
