// The session view of the web client: the agent-state predicate that gates
// the session, and the two on-screen windows fed by the room's data
// channel -- the last three charts and the last two SQL results -- with
// their close and clear-all buttons.

module SessionView {
  import opened Outcomes

  // ---------------------------------------------------------------------
  // Agent availability

  /** The voice assistant's states as the client library reports them. */
  datatype AgentState =
    | Disconnected
    | Connecting
    | PreConnectBuffering
    | Initializing
    | Listening
    | Thinking
    | Speaking

  /** The states before the agent has joined and finished initialising. */
  predicate StillStarting(s: AgentState) {
    s.Disconnected? || s.Connecting? || s.PreConnectBuffering? || s.Initializing?
  }

  /** `isAgentAvailable`: the agent is listening, thinking or speaking. */
  predicate IsAgentAvailable(s: AgentState) {
    s == Listening || s == Thinking || s == Speaking
  }

  /** The agent is available exactly when it is past starting up. */
  lemma AvailableIffStarted(s: AgentState)
    ensures IsAgentAvailable(s) <==> !StillStarting(s)
  {
  }

  // ---------------------------------------------------------------------
  // Data-channel packets

  /** A decoded JSON value; what a chart or a SQL result holds is not
      checked by the client (the parsed value is cast, not validated). */
  datatype Json =
    | JNull
    | JBool(b: bool)
    | JNumber(n: int)
    | JString(s: string)
    | JArray(items: seq<Json>)
    | JObject(fields: seq<(string, Json)>)

  /** What arrives on the data channel: the raw bytes and the optional
      topic. */
  datatype Packet = Packet(payload: seq<bv8>, topic: Option<string>)

  const ChartTopic: string := "grafico"
  const SqlResultTopic: string := "sql-result"
  const MaxCharts: nat := 3
  const MaxSqlResults: nat := 2

  function Min(a: nat, b: nat): nat {
    if a <= b then a else b
  }

  // ---------------------------------------------------------------------
  // The state updaters

  /** `[...prev, item]`, trimmed with `slice(-cap)` once it grows past
      `cap`: the newest `cap` entries, oldest evicted first. */
  function AppendBounded<T>(prev: seq<T>, item: T, cap: nat): (r: seq<T>)
    requires cap > 0
    ensures |r| == Min(|prev| + 1, cap)
    ensures r == (prev + [item])[|prev| + 1 - |r|..]
  {
    var updated := prev + [item];
    if |updated| > cap then updated[|updated| - cap..] else updated
  }

  /** `prev.filter((_, i) => i !== index)`: keep every entry whose position
      is not `index`. */
  function RemoveAt<T>(s: seq<T>, index: int): (r: seq<T>)
    decreases |s|
    ensures 0 <= index < |s| ==> r == s[..index] + s[index + 1..]
    ensures !(0 <= index < |s|) ==> r == s
  {
    if s == [] then []
    else
      var last := |s| - 1;
      RemoveAt(s[..last], index) + (if last == index then [] else [s[last]])
  }

  /** The newest entry is last, and a window below capacity just grows. */
  lemma AppendBoundedNewestLast<T>(prev: seq<T>, item: T, cap: nat)
    requires cap > 0
    ensures AppendBounded(prev, item, cap)[|AppendBounded(prev, item, cap)| - 1] == item
    ensures |prev| < cap ==> AppendBounded(prev, item, cap) == prev + [item]
    ensures |prev| >= cap ==> AppendBounded(prev, item, cap) == prev[|prev| + 1 - cap..] + [item]
  {
    var r := AppendBounded(prev, item, cap);
    assert r[|r| - 1] == (prev + [item])[|prev|];
    if |prev| >= cap {
      assert (prev + [item])[|prev| + 1 - cap..] == prev[|prev| + 1 - cap..] + [item];
    }
  }

  /** The window after a stream of arrivals, starting from an empty one. */
  function Replay<T>(history: seq<T>, cap: nat): seq<T>
    requires cap > 0
    decreases |history|
  {
    if history == [] then [] else AppendBounded(Replay(history[..|history| - 1], cap), history[|history| - 1], cap)
  }

  /** Whatever arrived, the window holds exactly the newest `cap` arrivals in
      arrival order. */
  lemma {:induction false} ReplayKeepsNewest<T>(history: seq<T>, cap: nat)
    requires cap > 0
    decreases |history|
    ensures Replay(history, cap) == history[|history| - Min(|history|, cap)..]
  {
    if history != [] {
      var init := history[..|history| - 1];
      ReplayKeepsNewest(init, cap);
      assert init + [history[|history| - 1]] == history;
      WindowStep(init, history[|history| - 1], cap);
    }
  }

  /** One arrival on the newest `cap` entries of a stream leaves the newest
      `cap` entries of the longer stream. */
  lemma WindowStep<T>(init: seq<T>, x: T, cap: nat)
    requires cap > 0
    ensures AppendBounded(init[|init| - Min(|init|, cap)..], x, cap) ==
            (init + [x])[|init| + 1 - Min(|init| + 1, cap)..]
  {
    var w := init[|init| - Min(|init|, cap)..];
    var tail := (init + [x])[|init| - |w|..];
    assert w + [x] == tail;
  }


  // ---------------------------------------------------------------------
  // The component's state

  /** The two windows the session view keeps. */
  class Windows {
    var charts: seq<Json>
    var sqlResults: seq<Json>

    predicate Valid()
      reads this
    {
      |charts| <= MaxCharts && |sqlResults| <= MaxSqlResults
    }

    /** Both windows start empty. */
    constructor()
      ensures charts == [] && sqlResults == []
      ensures Valid()
    {
      charts := [];
      sqlResults := [];
    }

    /** `handleDataReceived`: a packet on the `grafico` topic appends its
        parsed value to the charts, one on `sql-result` to the SQL results;
        a payload that does not decode to JSON, or any other topic, changes
        nothing. `parse` stands for decoding the bytes and `JSON.parse`. */
    method HandleDataReceived(packet: Packet, parse: seq<bv8> -> Option<Json>)
      requires Valid()
      modifies this
      ensures Valid()
      ensures charts == (if packet.topic == Some(ChartTopic) && parse(packet.payload).Some?
                         then AppendBounded(old(charts), parse(packet.payload).value, MaxCharts)
                         else old(charts))
      ensures sqlResults == (if packet.topic == Some(SqlResultTopic) && parse(packet.payload).Some?
                             then AppendBounded(old(sqlResults), parse(packet.payload).value, MaxSqlResults)
                             else old(sqlResults))
    {
      if packet.topic == Some(ChartTopic) {
        var chart := parse(packet.payload);
        if chart.Some? {
          charts := AppendBounded(charts, chart.value, MaxCharts);
        }
      }
      if packet.topic == Some(SqlResultTopic) {
        var result := parse(packet.payload);
        if result.Some? {
          sqlResults := AppendBounded(sqlResults, result.value, MaxSqlResults);
        }
      }
    }

    /** The close button on the chart at `index`. */
    method CloseChart(index: int)
      requires Valid()
      modifies this
      ensures Valid()
      ensures charts == RemoveAt(old(charts), index) && sqlResults == old(sqlResults)
    {
      charts := RemoveAt(charts, index);
    }

    /** The close button on the SQL result at `index`. */
    method CloseSqlResult(index: int)
      requires Valid()
      modifies this
      ensures Valid()
      ensures sqlResults == RemoveAt(old(sqlResults), index) && charts == old(charts)
    {
      sqlResults := RemoveAt(sqlResults, index);
    }

    /** The button that closes every chart. */
    method ClearCharts()
      requires Valid()
      modifies this
      ensures Valid()
      ensures charts == [] && sqlResults == old(sqlResults)
    {
      charts := [];
    }

    /** The button that closes every SQL result. */
    method ClearSqlResults()
      requires Valid()
      modifies this
      ensures Valid()
      ensures sqlResults == [] && charts == old(charts)
    {
      sqlResults := [];
    }
  }

  // ---------------------------------------------------------------------
  // Properties of the updaters

  /** Removing an entry in range shortens the window by one and keeps every
      other entry, in order. */
  lemma RemoveAtKeepsOthers<T>(s: seq<T>, index: int)
    requires 0 <= index < |s|
    ensures |RemoveAt(s, index)| == |s| - 1
    ensures forall j :: 0 <= j < index ==> RemoveAt(s, index)[j] == s[j]
    ensures forall j :: index <= j < |s| - 1 ==> RemoveAt(s, index)[j] == s[j + 1]
    ensures multiset(RemoveAt(s, index)) + multiset{s[index]} == multiset(s)
  {
    var r := RemoveAt(s, index);
    assert r == s[..index] + s[index + 1..];
    forall j | index <= j < |s| - 1
      ensures r[j] == s[j + 1]
    {
      assert r[j] == s[index + 1..][j - index];
    }
    calc {
      multiset(s);
      { assert s == s[..index] + ([s[index]] + s[index + 1..]); }
      multiset(s[..index]) + multiset([s[index]] + s[index + 1..]);
      multiset(s[..index]) + multiset(s[index + 1..]) + multiset{s[index]};
      multiset(r) + multiset{s[index]};
    }
  }

  /** A window at its capacity stays there: one arrival evicts exactly the
      oldest entry. */
  lemma FullWindowEvictsOldest<T>(prev: seq<T>, item: T, cap: nat)
    requires cap > 0 && |prev| == cap
    ensures AppendBounded(prev, item, cap) == prev[1..] + [item]
  {
    AppendBoundedNewestLast(prev, item, cap);
  }
}
