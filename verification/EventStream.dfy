/** The run panel's event stream: cutting a chunked text into frames, folding the frames into
    the live progress, and grouping repeated tool steps (os-ui/components/agents/BuildRunPanel.tsx). */
module EventStream {
  import opened Prelude
  import opened Splitting

  // ------------------------------------------------------------- pieces

  /** The first blank line at or after position `i`: the `i` with a newline there and next. */
  function FindBlank(s: string, i: nat): (r: Option<nat>)
    requires i <= |s|
    ensures r.Some? ==> i <= r.value < |s| - 1 && s[r.value] == '\n' == s[r.value + 1]
    ensures forall k :: i <= k < (if r.Some? then r.value else |s| - 1) ==> !(s[k] == '\n' == s[k + 1])
    decreases |s| - i
  {
    if i + 1 >= |s| then None
    else if s[i] == '\n' && s[i + 1] == '\n' then Some(i)
    else FindBlank(s, i + 1)
  }

  /** JavaScript's `s.split('\n\n')`. */
  function Pieces(s: string): (r: seq<string>)
    ensures r != []
    decreases |s|
  {
    match FindBlank(s, 0)
    case None => [s]
    case Some(i) => [s[..i]] + Pieces(s[i + 2..])
  }

  function Init(p: seq<string>): seq<string>
    requires p != []
  {
    p[..|p| - 1]
  }

  function Last(p: seq<string>): string
    requires p != []
  {
    p[|p| - 1]
  }

  function Glue(p: seq<string>): string
    requires p != []
  {
    if |p| == 1 then p[0] else p[0] + "\n\n" + Glue(p[1..])
  }

  function Concat(chunks: seq<string>): string {
    if chunks == [] then "" else Concat(chunks[..|chunks| - 1]) + chunks[|chunks| - 1]
  }

  predicate HasBlankLine(p: string) {
    exists i :: 0 <= i < |p| - 1 && p[i] == '\n' && p[i + 1] == '\n'
  }

  /** Splitting loses nothing, and it splits at the first blank line, and so on: no piece holds
      a blank line, and none but the last ends in a newline. */
  lemma {:induction false} PiecesGlueBack(s: string)
    ensures Glue(Pieces(s)) == s
    ensures forall k :: 0 <= k < |Pieces(s)| ==> !HasBlankLine(Pieces(s)[k])
    ensures forall k :: 0 <= k < |Pieces(s)| - 1 ==> Pieces(s)[k] == "" || Pieces(s)[k][|Pieces(s)[k]| - 1] != '\n'
    decreases |s|
  {
    var r := FindBlank(s, 0);
    if r.Some? {
      var i := r.value;
      var p := Pieces(s[i + 2..]);
      PiecesGlueBack(s[i + 2..]);
      assert ([s[..i]] + p)[1..] == p;
      assert s == s[..i] + "\n\n" + s[i + 2..];
    }
  }

  /** The reader's step: what one more chunk does to a text already cut into pieces. */
  lemma {:induction false} PiecesOfMore(a: string, b: string)
    ensures Pieces(a + b) == Init(Pieces(a)) + Pieces(Last(Pieces(a)) + b)
    decreases |a|
  {
    var r := FindBlank(a, 0);
    if r.Some? {
      var i := r.value;
      assert forall k :: 0 <= k < |a| ==> (a + b)[k] == a[k];
      assert FindBlank(a + b, 0) == r;
      assert (a + b)[i + 2..] == a[i + 2..] + b && (a + b)[..i] == a[..i];
      PiecesOfMore(a[i + 2..], b);
    }
  }

  // ----------------------------------------------------------- one frame

  /** What `JSON.parse` gives, as far as the panel looks into it. */
  datatype Data = Data(
    node: Option<string>,
    index: Option<int>,
    total: Option<int>,
    tool: Option<string>,
    status: Option<string>,
    error: Option<string>)

  datatype Event = Event(name: string, data: Data)

  datatype Live = Live(
    node: Option<string>,
    index: Option<int>,
    total: Option<int>,
    tool: Option<string>,
    stepStatus: Option<string>,
    stepIndex: Option<int>,
    started: seq<string>,
    completed: seq<string>)

  datatype View = View(result: Option<Data>, error: string, live: Option<Live>, settled: bool)

  function FindLine(lines: seq<string>, prefix: string): Option<string> {
    if lines == [] then None
    else if prefix <= lines[0] then Some(Trim(lines[0][|prefix|..]))
    else FindLine(lines[1..], prefix)
  }

  /** The event of a frame; frames without one are skipped. */
  function Decode(frame: string, parse: string -> Option<Data>): Option<Event> {
    var name, data := FindLine(Split(frame, '\n'), "event:"), FindLine(Split(frame, '\n'), "data:");
    if name.None? || data.None? || parse(data.value).None? then None
    else Some(Event(name.value, parse(data.value).value))
  }

  /** Line `k` is the first that starts with the prefix. */
  predicate IsFirst(lines: seq<string>, prefix: string, k: nat) {
    k < |lines| && prefix <= lines[k] && forall j :: 0 <= j < k ==> !(prefix <= lines[j])
  }

  lemma {:induction false} FindLineIff(lines: seq<string>, prefix: string, text: string)
    ensures FindLine(lines, prefix) == Some(text)
       <==> exists k: nat :: IsFirst(lines, prefix, k) && text == Trim(lines[k][|prefix|..])
  {
    if lines != [] {
      FindLineIff(lines[1..], prefix, text);
      if prefix <= lines[0] {
        assert IsFirst(lines, prefix, 0);
      } else {
        FirstShifts(lines, prefix);
      }
    }
  }

  lemma FirstShifts(lines: seq<string>, prefix: string)
    requires lines != [] && !(prefix <= lines[0])
    ensures !IsFirst(lines, prefix, 0)
    ensures forall k: nat :: IsFirst(lines[1..], prefix, k) ==> IsFirst(lines, prefix, k + 1)
    ensures forall k: nat :: k > 0 && IsFirst(lines, prefix, k) ==> IsFirst(lines[1..], prefix, k - 1)
  {
  }

  /** A frame is an event exactly if it has a line that starts with `event:` and one that starts
      with `data:`; its name is what the first of the former says, and its data what the parser
      makes of the first of the latter, both without white space around them. */
  lemma DecodeIff(frame: string, parse: string -> Option<Data>, e: Event)
    ensures Decode(frame, parse) == Some(e)
       <==> exists i: nat, j: nat ::
              && IsFirst(Split(frame, '\n'), "event:", i) && IsFirst(Split(frame, '\n'), "data:", j)
              && e.name == Trim(Split(frame, '\n')[i][6..]) && parse(Trim(Split(frame, '\n')[j][5..])) == Some(e.data)
  {
    var lines := Split(frame, '\n');
    var name, data := FindLine(lines, "event:"), FindLine(lines, "data:");
    if Decode(frame, parse) == Some(e) {
      FindLineIff(lines, "event:", name.value);
      FindLineIff(lines, "data:", data.value);
    }
    if i: nat, j: nat :|
      && IsFirst(lines, "event:", i) && IsFirst(lines, "data:", j)
      && e.name == Trim(lines[i][6..]) && parse(Trim(lines[j][5..])) == Some(e.data)
    {
      FindLineIff(lines, "event:", Trim(lines[i][6..]));
      FindLineIff(lines, "data:", Trim(lines[j][5..]));
    }
  }

  predicate IsField(s: string) {
    '\n' !in s && (s != "" ==> !IsJsSpace(s[0]) && !IsJsSpace(s[|s| - 1]))
  }

  lemma FieldIsTrimmed(prefix: string, s: string)
    requires IsField(s)
    ensures (prefix + " " + s)[|prefix|..] == " " + s && Trim(" " + s) == s
  {
    TrimPadded(" ", s, "");
    assert " " + (s + "") == " " + s;
    assert (prefix + " " + s)[|prefix|..] == " " + s;
  }

  /** A frame as the server writes it is read back. */
  lemma WrittenIsRead(name: string, payload: string, parse: string -> Option<Data>)
    requires IsField(name) && IsField(payload) && parse(payload).Some?
    ensures Decode(("event:" + " " + name) + "\n" + ("data:" + " " + payload), parse)
         == Some(Event(name, parse(payload).value))
  {
    var first, second := "event:" + " " + name, "data:" + " " + payload;
    SplitAppend(first, second, '\n');
    SplitSingle(first, '\n');
    SplitSingle(second, '\n');
    var lines := [first, second];
    assert first[0] == 'e' && second[0] == 'd';
    assert IsFirst(lines, "event:", 0) && IsFirst(lines, "data:", 1);
    FieldIsTrimmed("event:", name);
    FieldIsTrimmed("data:", payload);
    FindLineIff(lines, "event:", name);
    FindLineIff(lines, "data:", payload);
  }

  function OrElse(x: Option<string>, y: string): string {
    if x.Some? then x.value else y
  }

  function Once(list: seq<string>, node: string): seq<string> {
    if node in list then list else list + [node]
  }

  /** `applyEvent`: fold one progress event into the live banner. */
  function ApplyEvent(live: Option<Live>, e: Event): Option<Live> {
    var p := if live.Some? then live.value else Live(None, None, None, None, None, None, [], []);
    var node := OrElse(e.data.node, "");
    if e.name == "node-started" then
      Some(Live(Some(node), e.data.index, e.data.total, None, None, None, Once(p.started, node), p.completed))
    else if e.name == "tool-step" then
      Some(p.(node := Some(if e.data.node.Some? then node else OrElse(p.node, "")),
              tool := Some(OrElse(e.data.tool, "")),
              stepStatus := Some(OrElse(e.data.status, "running")),
              stepIndex := e.data.index))
    else if e.name == "node-completed" then
      Some(p.(completed := Once(p.completed, node)))
    else live
  }

  function HandleEvent(v: View, e: Event): View {
    if e.name == "done" then v.(result := Some(e.data), live := None, settled := true)
    else if e.name == "error" then v.(error := OrElse(e.data.error, "Run failed"), settled := true)
    else v.(live := ApplyEvent(v.live, e))
  }

  function HandleFrame(v: View, frame: string, parse: string -> Option<Data>): View {
    var e := Decode(frame, parse);
    if e.None? then v else HandleEvent(v, e.value)
  }

  function HandleFrames(v: View, frames: seq<string>, parse: string -> Option<Data>): View {
    if frames == [] then v
    else HandleFrame(HandleFrames(v, frames[..|frames| - 1], parse), frames[|frames| - 1], parse)
  }

  const FRESH: View := View(None, "", None, false)

  function EndOfStream(v: View): View {
    if v.settled then v else v.(error := "The run stream ended before a result arrived \U{2014} please run again.")
  }

  lemma {:induction false} HandleInTurn(v: View, a: seq<string>, b: seq<string>, parse: string -> Option<Data>)
    ensures HandleFrames(v, a + b, parse) == HandleFrames(HandleFrames(v, a, parse), b, parse)
  {
    if b == [] {
      assert a + b == a;
    } else {
      assert (a + b)[..|a + b| - 1] == a + b[..|b| - 1];
      HandleInTurn(v, a, b[..|b| - 1], parse);
    }
  }

  lemma OneMoreChunk(chunks: seq<string>, n: nat, parse: string -> Option<Data>)
    requires n < |chunks|
    ensures var seen, more := Pieces(Concat(chunks[..n])), Pieces(Concat(chunks[..n + 1]));
      var pieces := Pieces(Last(seen) + chunks[n]);
      && Last(more) == Last(pieces)
      && HandleFrames(FRESH, Init(more), parse)
         == HandleFrames(HandleFrames(FRESH, Init(seen), parse), Init(pieces), parse)
  {
    var seen := Pieces(Concat(chunks[..n]));
    var pieces := Pieces(Last(seen) + chunks[n]);
    assert chunks[..n + 1][..n] == chunks[..n];
    PiecesOfMore(Concat(chunks[..n]), chunks[n]);
    assert Init(Init(seen) + pieces) == Init(seen) + Init(pieces);
    HandleInTurn(FRESH, Init(seen), Init(pieces), parse);
  }

  /** The reader loop of `doRun`. For any way of cutting the stream into chunks, the frames
      handled are all but the last piece of the whole text. */
  method ReadStream(chunks: seq<string>, parse: string -> Option<Data>) returns (view: View)
    ensures view == EndOfStream(HandleFrames(FRESH, Init(Pieces(Concat(chunks))), parse))
    ensures var events := Events(Init(Pieces(Concat(chunks))), parse);
      if view.settled then Reflects(view, events)
      else && view.error == "The run stream ended before a result arrived \U{2014} please run again."
           && Reflects(view.(error := ""), events)
  {
    BannerIsExact(Init(Pieces(Concat(chunks))), parse);
    view := FRESH;
    var buf := "";
    for n := 0 to |chunks|
      invariant buf == Last(Pieces(Concat(chunks[..n])))
      invariant view == HandleFrames(FRESH, Init(Pieces(Concat(chunks[..n]))), parse)
    {
      OneMoreChunk(chunks, n, parse);
      buf := buf + chunks[n];
      var pieces := Pieces(buf);
      buf := Last(pieces);
      view := HandleInOrder(view, Init(pieces), parse);
    }
    assert chunks[..|chunks|] == chunks;
    if !view.settled {
      NoErrorYet(view, Events(Init(Pieces(Concat(chunks))), parse));
      view := EndOfStream(view);
    }
  }

  /** The inner loop over the complete frames of one read. */
  method HandleInOrder(v: View, frames: seq<string>, parse: string -> Option<Data>) returns (view: View)
    ensures view == HandleFrames(v, frames, parse)
  {
    view := v;
    for k := 0 to |frames|
      invariant view == HandleFrames(v, frames[..k], parse)
    {
      assert frames[..k + 1][..k] == frames[..k];
      view := HandleFrame(view, frames[k], parse);
    }
    assert frames[..|frames|] == frames;
  }

  // -------------------------------------------- what the banner then shows

  /** The events of the frames, in order. */
  function Events(frames: seq<string>, parse: string -> Option<Data>): seq<Event> {
    if frames == [] then []
    else
      var e := Decode(frames[|frames| - 1], parse);
      Events(frames[..|frames| - 1], parse) + if e.Some? then [e.value] else []
  }

  datatype Sort = Done | Failed | Started | Stepped | Completed | Other

  function SortOf(name: string): Sort {
    if name == "done" then Done
    else if name == "error" then Failed
    else if name == "node-started" then Started
    else if name == "tool-step" then Stepped
    else if name == "node-completed" then Completed
    else Other
  }

  /** The events after the last `done`. */
  function SinceDone(events: seq<Event>): seq<Event> {
    if events == [] || SortOf(events[|events| - 1].name).Done? then []
    else SinceDone(events[..|events| - 1]) + [events[|events| - 1]]
  }

  function NodesOf(events: seq<Event>, sort: Sort): seq<string> {
    if events == [] then []
    else
      var e := events[|events| - 1];
      NodesOf(events[..|events| - 1], sort) + if SortOf(e.name) == sort then [OrElse(e.data.node, "")] else []
  }

  /** The distinct members of a list, each at its first place. */
  function Firsts(list: seq<string>): (r: seq<string>)
    ensures forall x :: x in r <==> x in list
    ensures forall i, j :: 0 <= i < j < |r| ==> r[i] != r[j]
  {
    if list == [] then [] else Once(Firsts(list[..|list| - 1]), list[|list| - 1])
  }

  /** The places of the distinct members: each the first of its member, in order. */
  ghost predicate AreFirstPlaces(list: seq<string>, firsts: seq<string>, at: seq<nat>) {
    && |at| == |firsts|
    && (forall k :: 0 <= k < |at| ==> at[k] < |list| && firsts[k] == list[at[k]])
    && (forall k, i :: 0 <= k < |at| && 0 <= i < at[k] ==> list[i] != firsts[k])
    && (forall j, k :: 0 <= j < k < |at| ==> at[j] < at[k])
  }

  lemma {:induction false} FirstsInOrder(list: seq<string>) returns (at: seq<nat>)
    ensures AreFirstPlaces(list, Firsts(list), at)
  {
    if list == [] {
      at := [];
    } else {
      var n := |list| - 1;
      at := FirstsInOrder(list[..n]);
      if list[n] !in Firsts(list[..n]) {
        NewPlace(list, Firsts(list[..n]), at);
        at := at + [n];
      }
    }
  }

  lemma NewPlace(list: seq<string>, firsts: seq<string>, at: seq<nat>)
    requires list != [] && AreFirstPlaces(list[..|list| - 1], firsts, at)
    requires list[|list| - 1] !in list[..|list| - 1]
    ensures AreFirstPlaces(list, firsts + [list[|list| - 1]], at + [|list| - 1])
  {
    var n := |list| - 1;
    assert forall i :: 0 <= i < n ==> list[..n][i] == list[i] && list[i] in list[..n];
  }

  predicate Settles(e: Event) {
    SortOf(e.name) == Done || SortOf(e.name) == Failed
  }

  /** Which events tell a part of the banner. */
  datatype Topic = Of(sort: Sort) | Progress | Move | NodeGiven

  predicate IsAbout(e: Event, topic: Topic) {
    var sort := SortOf(e.name);
    match topic
    case Of(s) => sort == s
    case Progress => sort == Started || sort == Stepped || sort == Completed
    case Move => sort == Started || sort == Stepped
    case NodeGiven => sort == Started || (sort == Stepped && e.data.node.Some?)
  }

  function LastOf(events: seq<Event>, topic: Topic): Option<Event> {
    if events == [] then None
    else if IsAbout(events[|events| - 1], topic) then Some(events[|events| - 1])
    else LastOf(events[..|events| - 1], topic)
  }

  /** The node shown: that of the last event which gave one; a tool step without any gives "". */
  function NodeShown(since: seq<Event>): Option<string> {
    var e := LastOf(since, NodeGiven);
    if e.Some? then Some(OrElse(e.value.data.node, ""))
    else if LastOf(since, Of(Stepped)).Some? then Some("")
    else None
  }

  function IndexShown(e: Option<Event>): Option<int> {
    if e.Some? then e.value.data.index else None
  }

  function TotalShown(e: Option<Event>): Option<int> {
    if e.Some? then e.value.data.total else None
  }

  /** The step shown, if no node was started after it: its tool, status and index. */
  predicate ShowsStep(live: Live, move: Option<Event>) {
    if move.Some? && SortOf(move.value.name) == Stepped
    then && live.tool == Some(OrElse(move.value.data.tool, ""))
         && live.stepStatus == Some(OrElse(move.value.data.status, "running"))
         && live.stepIndex == move.value.data.index
    else live.tool == None && live.stepStatus == None && live.stepIndex == None
  }

  /** The nodes started and completed, each once and in order of first report. */
  predicate ListsNodes(p: Live, since: seq<Event>) {
    p.started == Firsts(NodesOf(since, Started)) && p.completed == Firsts(NodesOf(since, Completed))
  }

  /** The node, and the index and total of the last one started. */
  predicate ShowsNode(p: Live, since: seq<Event>) {
    && p.node == NodeShown(since)
    && p.index == IndexShown(LastOf(since, Of(Started))) && p.total == TotalShown(LastOf(since, Of(Started)))
  }

  /** The banner tells the progress events since the last `done`: there is one if there is any;
      the lists of nodes, the node and the step shown are theirs. */
  predicate Tells(live: Option<Live>, since: seq<Event>) {
    && (live.Some? <==> LastOf(since, Progress).Some?)
    && (live.Some? ==>
          ListsNodes(live.value, since) && ShowsNode(live.value, since) && ShowsStep(live.value, LastOf(since, Move)))
  }

  /** The result shown is that of the last `done`, the error that of the last `error`, and the
      run is settled by either. */
  predicate Ends(v: View, events: seq<Event>) {
    && v.settled == HasTerminal(events)
    && v.result == (var e := LastOf(events, Of(Done)); if e.None? then None else Some(e.value.data))
    && v.error == (var e := LastOf(events, Of(Failed));
                   if e.None? then "" else OrElse(e.value.data.error, "Run failed"))
  }

  predicate Reflects(v: View, events: seq<Event>) {
    Tells(v.live, SinceDone(events)) && Ends(v, events)
  }

  lemma LastGrows(events: seq<Event>, e: Event, topic: Topic)
    ensures LastOf(events + [e], topic) == if IsAbout(e, topic) then Some(e) else LastOf(events, topic)
  {
    assert (events + [e])[..|events|] == events;
  }

  predicate HasTerminal(events: seq<Event>) {
    exists e :: e in events && Settles(e)
  }

  lemma TerminalGrows(events: seq<Event>, e: Event)
    ensures HasTerminal(events + [e]) == (HasTerminal(events) || Settles(e))
  {
    assert forall x :: x in events + [e] <==> x in events || x == e;
  }

  lemma FirstsGrow(list: seq<string>, node: string)
    ensures Firsts(list + [node]) == Once(Firsts(list), node)
  {
    assert (list + [node])[..|list|] == list;
  }

  lemma NodesGrow(events: seq<Event>, e: Event, sort: Sort)
    ensures NodesOf(events + [e], sort)
         == NodesOf(events, sort) + if SortOf(e.name) == sort then [OrElse(e.data.node, "")] else []
  {
    assert (events + [e])[..|events|] == events;
  }

  lemma SinceGrows(events: seq<Event>, e: Event)
    ensures SinceDone(events + [e]) == if SortOf(e.name) == Done then [] else SinceDone(events) + [e]
  {
    assert (events + [e])[..|events|] == events;
  }

  lemma FirstNodesGrow(since: seq<Event>, e: Event, sort: Sort)
    ensures var firsts := Firsts(NodesOf(since, sort));
      Firsts(NodesOf(since + [e], sort))
      == if SortOf(e.name) == sort then Once(firsts, OrElse(e.data.node, "")) else firsts
  {
    var nodes := NodesOf(since, sort);
    NodesGrow(since, e, sort);
    if SortOf(e.name) == sort {
      FirstsGrow(nodes, OrElse(e.data.node, ""));
    } else {
      assert nodes + [] == nodes;
    }
  }

  /** Without progress nothing is shown. */
  lemma {:induction false} NoProgress(since: seq<Event>)
    requires LastOf(since, Progress).None?
    ensures NodesOf(since, Started) == [] && NodesOf(since, Completed) == []
    ensures LastOf(since, Of(Started)).None? && LastOf(since, Of(Stepped)).None?
    ensures LastOf(since, Move).None? && LastOf(since, NodeGiven).None?
  {
    if since != [] {
      NoProgress(since[..|since| - 1]);
    }
  }

  const EMPTY_BANNER: Live := Live(None, None, None, None, None, None, [], [])

  /** What an event makes of the banner `p`, by its sort. */
  function Applied(p: Live, e: Event): Live {
    var node := OrElse(e.data.node, "");
    match SortOf(e.name)
    case Started =>
      Live(Some(node), e.data.index, e.data.total, None, None, None, Once(p.started, node), p.completed)
    case Stepped =>
      p.(node := Some(if e.data.node.Some? then node else OrElse(p.node, "")), tool := Some(OrElse(e.data.tool, "")),
         stepStatus := Some(OrElse(e.data.status, "running")), stepIndex := e.data.index)
    case Completed => p.(completed := Once(p.completed, node))
    case _ => p
  }

  lemma AppliedStarted(p: Live, e: Event)
    ensures Applied(p, e).started
         == if SortOf(e.name) == Started then Once(p.started, OrElse(e.data.node, "")) else p.started
  {
  }

  lemma AppliedCompleted(p: Live, e: Event)
    ensures Applied(p, e).completed
         == if SortOf(e.name) == Completed then Once(p.completed, OrElse(e.data.node, "")) else p.completed
  {
  }

  lemma AppliedLists(p: Live, since: seq<Event>, e: Event)
    requires ListsNodes(p, since)
    ensures ListsNodes(Applied(p, e), since + [e])
  {
    assert Applied(p, e).started == Firsts(NodesOf(since + [e], Started)) by {
      FirstNodesGrow(since, e, Started);
      AppliedStarted(p, e);
    }
    assert Applied(p, e).completed == Firsts(NodesOf(since + [e], Completed)) by {
      FirstNodesGrow(since, e, Completed);
      AppliedCompleted(p, e);
    }
  }

  lemma AppliedNode(p: Live, since: seq<Event>, e: Event)
    requires ShowsNode(p, since)
    ensures ShowsNode(Applied(p, e), since + [e])
  {
    LastGrows(since, e, Of(Started));
    LastGrows(since, e, Of(Stepped));
    LastGrows(since, e, NodeGiven);
  }

  lemma AppliedShows(p: Live, since: seq<Event>, e: Event)
    requires ShowsStep(p, LastOf(since, Move))
    ensures ShowsStep(Applied(p, e), LastOf(since + [e], Move))
  {
    LastGrows(since, e, Move);
  }

  lemma ApplyIsApplied(live: Option<Live>, e: Event)
    requires SortOf(e.name) != Done && SortOf(e.name) != Failed
    ensures ApplyEvent(live, e)
         == if IsAbout(e, Progress) then Some(Applied(if live.Some? then live.value else EMPTY_BANNER, e)) else live
  {
  }

  /** One more event among those since the last `done`. */
  lemma AppliedTells(live: Option<Live>, since: seq<Event>, e: Event)
    requires Tells(live, since)
    ensures var p := if live.Some? then live.value else EMPTY_BANNER;
      Tells(if IsAbout(e, Progress) then Some(Applied(p, e)) else live, since + [e])
  {
    var p := if live.Some? then live.value else EMPTY_BANNER;
    if live.None? {
      NoProgress(since);
    }
    LastGrows(since, e, Progress);
    AppliedLists(p, since, e);
    AppliedNode(p, since, e);
    AppliedShows(p, since, e);
  }

  lemma SettledAfter(v: View, e: Event)
    ensures HandleEvent(v, e).settled == (v.settled || Settles(e))
    ensures HandleEvent(v, e).result == if SortOf(e.name) == Done then Some(e.data) else v.result
    ensures HandleEvent(v, e).error == if SortOf(e.name) == Failed then OrElse(e.data.error, "Run failed") else v.error
  {
  }

  lemma HandleEnds(v: View, events: seq<Event>, e: Event)
    requires Ends(v, events)
    ensures Ends(HandleEvent(v, e), events + [e])
  {
    SettledAfter(v, e);
    TerminalGrows(events, e);
    LastGrows(events, e, Of(Done));
    LastGrows(events, e, Of(Failed));
  }

  lemma LiveAfter(v: View, e: Event)
    ensures HandleEvent(v, e).live
         == if SortOf(e.name) == Done then None
            else if IsAbout(e, Progress) then Some(Applied(if v.live.Some? then v.live.value else EMPTY_BANNER, e))
            else v.live
  {
    if SortOf(e.name) != Done && SortOf(e.name) != Failed {
      ApplyIsApplied(v.live, e);
    }
  }

  lemma HandleReflects(v: View, events: seq<Event>, e: Event)
    requires Reflects(v, events)
    ensures Reflects(HandleEvent(v, e), events + [e])
  {
    HandleEnds(v, events, e);
    LiveAfter(v, e);
    SinceGrows(events, e);
    AppliedTells(v.live, SinceDone(events), e);
  }

  /** What the fold leaves: the banner of the progress since the last `done`; the last result
      and the last error; and whether a terminal event was handled at all. */
  lemma {:induction false} BannerIsExact(frames: seq<string>, parse: string -> Option<Data>)
    ensures Reflects(HandleFrames(FRESH, frames, parse), Events(frames, parse))
  {
    if frames != [] {
      var before := frames[..|frames| - 1];
      var e := Decode(frames[|frames| - 1], parse);
      BannerIsExact(before, parse);
      if e.Some? {
        HandleReflects(HandleFrames(FRESH, before, parse), Events(before, parse), e.value);
      } else {
        assert Events(before, parse) + [] == Events(before, parse);
      }
    }
  }

  lemma {:induction false} LastIsThere(events: seq<Event>, topic: Topic)
    requires LastOf(events, topic).Some?
    ensures LastOf(events, topic).value in events && IsAbout(LastOf(events, topic).value, topic)
  {
    if !IsAbout(events[|events| - 1], topic) {
      LastIsThere(events[..|events| - 1], topic);
    }
  }

  lemma NoErrorYet(v: View, events: seq<Event>)
    requires Reflects(v, events) && !v.settled
    ensures v.error == ""
  {
    if LastOf(events, Of(Failed)).Some? {
      LastIsThere(events, Of(Failed));
    }
  }

  /** A terminal frame counts only once its blank line has arrived: without one after it, it
      is the last piece, and the run is reported as cut off. */
  lemma SettledIff(chunks: seq<string>, parse: string -> Option<Data>)
    ensures var frames := Init(Pieces(Concat(chunks)));
      HandleFrames(FRESH, frames, parse).settled == AnyTerminal(frames, parse)
  {
    BannerIsExact(Init(Pieces(Concat(chunks))), parse);
    EventsOf(Init(Pieces(Concat(chunks))), parse);
  }

  predicate IsTerminal(frame: string, parse: string -> Option<Data>) {
    Decode(frame, parse).Some? && Settles(Decode(frame, parse).value)
  }

  predicate AnyTerminal(frames: seq<string>, parse: string -> Option<Data>) {
    exists k :: 0 <= k < |frames| && IsTerminal(frames[k], parse)
  }

  lemma AnyTerminalGrows(frames: seq<string>, frame: string, parse: string -> Option<Data>)
    ensures AnyTerminal(frames + [frame], parse) == (AnyTerminal(frames, parse) || IsTerminal(frame, parse))
  {
    var more := frames + [frame];
    assert more[|frames|] == frame;
    if AnyTerminal(frames, parse) {
      var k :| 0 <= k < |frames| && IsTerminal(frames[k], parse);
      assert IsTerminal(more[k], parse);
    }
  }

  lemma {:induction false} EventsOf(frames: seq<string>, parse: string -> Option<Data>)
    ensures HasTerminal(Events(frames, parse)) == AnyTerminal(frames, parse)
  {
    if frames != [] {
      var n := |frames| - 1;
      var before, e := frames[..n], Decode(frames[n], parse);
      assert frames == before + [frames[n]];
      EventsOf(before, parse);
      AnyTerminalGrows(before, frames[n], parse);
      if e.Some? {
        TerminalGrows(Events(before, parse), e.value);
      } else {
        assert Events(before, parse) + [] == Events(before, parse);
      }
    }
  }

  // ------------------------------------------------------- grouped steps

  datatype NodeStep = NodeStep(tool: string, isError: Option<bool>, errorKind: Option<string>, detail: string)

  datatype StepGroup = StepGroup(step: NodeStep, count: nat, firstIndex: nat)

  predicate SameKey(a: NodeStep, b: NodeStep) {
    && a.tool == b.tool
    && (a.isError == Some(true)) == (b.isError == Some(true))
    && a.errorKind == b.errorKind
  }

  /** The groups cover the first `n` steps, in order and without gaps; a group shows its first
      step and holds only steps like it; and neighbouring groups differ, so none could be longer. */
  predicate IsGrouping(groups: seq<StepGroup>, steps: seq<NodeStep>, n: nat)
    requires n <= |steps|
  {
    && (if groups == [] then n == 0 else EndOf(groups[|groups| - 1]) == n && groups[0].firstIndex == 0)
    && (forall k :: 0 <= k < |groups| ==> IsGroup(groups[k], steps, n))
    && (forall k :: 0 < k < |groups| ==>
          groups[k].firstIndex == EndOf(groups[k - 1]) && !SameKey(groups[k - 1].step, groups[k].step))
  }

  function EndOf(g: StepGroup): nat {
    g.firstIndex + g.count
  }

  predicate IsGroup(g: StepGroup, steps: seq<NodeStep>, n: nat)
    requires n <= |steps|
  {
    && 0 < g.count && EndOf(g) <= n && g.step == steps[g.firstIndex]
    && forall i :: g.firstIndex <= i < EndOf(g) ==> SameKey(g.step, steps[i])
  }

  /** The next step joins the last group. */
  lemma StepJoins(groups: seq<StepGroup>, steps: seq<NodeStep>, i: nat)
    requires i < |steps| && groups != [] && IsGrouping(groups, steps, i)
    requires SameKey(groups[|groups| - 1].step, steps[i])
    ensures var last := groups[|groups| - 1];
      IsGrouping(groups[..|groups| - 1] + [last.(count := last.count + 1)], steps, i + 1)
  {
    var n := |groups| - 1;
    var more := groups[..n] + [groups[n].(count := groups[n].count + 1)];
    assert forall k :: 0 <= k < n ==> more[k] == groups[k];
  }

  /** The next step starts a group of its own. */
  lemma StepStarts(groups: seq<StepGroup>, steps: seq<NodeStep>, i: nat)
    requires i < |steps| && IsGrouping(groups, steps, i)
    requires groups != [] ==> !SameKey(groups[|groups| - 1].step, steps[i])
    ensures IsGrouping(groups + [StepGroup(steps[i], 1, i)], steps, i + 1)
  {
    var more := groups + [StepGroup(steps[i], 1, i)];
    var n := |groups|;
    assert more[n].firstIndex == i && EndOf(more[n]) == i + 1;
    assert IsGroup(more[n], steps, i + 1);
    forall k | 0 <= k < n ensures IsGroup(more[k], steps, i + 1) {
      assert more[k] == groups[k] && IsGroup(groups[k], steps, i);
    }
    forall k | 0 < k <= n
      ensures more[k].firstIndex == EndOf(more[k - 1]) && !SameKey(more[k - 1].step, more[k].step)
    {
      assert more[k - 1] == groups[k - 1] && (k < n ==> more[k] == groups[k]);
    }
  }

  method GroupSteps(steps: seq<NodeStep>) returns (groups: seq<StepGroup>)
    ensures IsGrouping(groups, steps, |steps|)
  {
    groups := [];
    for i := 0 to |steps|
      invariant IsGrouping(groups, steps, i)
    {
      var n := |groups|;
      var s := steps[i];
      if n > 0 && groups[n - 1].step.tool == s.tool
         && (groups[n - 1].step.isError == Some(true)) == (s.isError == Some(true))
         && groups[n - 1].step.errorKind == s.errorKind {
        StepJoins(groups, steps, i);
        groups := groups[..n - 1] + [groups[n - 1].(count := groups[n - 1].count + 1)];
      } else {
        StepStarts(groups, steps, i);
        groups := groups + [StepGroup(steps[i], 1, i)];
      }
    }
  }

  /** There is only one such grouping. */
  lemma GroupingIsUnique(g: seq<StepGroup>, h: seq<StepGroup>, steps: seq<NodeStep>)
    requires IsGrouping(g, steps, |steps|) && IsGrouping(h, steps, |steps|)
    ensures g == h
  {
    var n := if |g| < |h| then |g| else |h|;
    SamePrefix(g, h, steps, n);
    assert n == |g| ==> g[..n] == g;
    assert n == |h| ==> h[..n] == h;
    if n == |g| {
      NoMore(g, h, steps, n);
    } else {
      NoMore(h, g, steps, n);
    }
  }

  lemma NoMore(g: seq<StepGroup>, h: seq<StepGroup>, steps: seq<NodeStep>, n: nat)
    requires IsGrouping(g, steps, |steps|) && IsGrouping(h, steps, |steps|)
    requires n == |g| <= |h| && g == h[..n]
    ensures |h| == n
  {
    assert n > 0 ==> g[n - 1] == h[n - 1];
    if n < |h| {
      GroupFits(h, steps, n);
    }
  }

  lemma GroupFits(g: seq<StepGroup>, steps: seq<NodeStep>, k: nat)
    requires IsGrouping(g, steps, |steps|) && k < |g|
    ensures g[k].firstIndex < |steps|
    ensures g[k].firstIndex == if k == 0 then 0 else EndOf(g[k - 1])
  {
    assert IsGroup(g[k], steps, |steps|);
  }

  lemma {:induction false} SamePrefix(g: seq<StepGroup>, h: seq<StepGroup>, steps: seq<NodeStep>, n: nat)
    requires IsGrouping(g, steps, |steps|) && IsGrouping(h, steps, |steps|)
    requires n <= |g| && n <= |h|
    ensures g[..n] == h[..n]
  {
    if n > 0 {
      SamePrefix(g, h, steps, n - 1);
      assert n > 1 ==> g[..n - 1][n - 2] == h[..n - 1][n - 2];
      assert g[n - 1].firstIndex == h[n - 1].firstIndex;
      IsMaximal(g, steps, n - 1);
      IsMaximal(h, steps, n - 1);
      assert g[n - 1] == h[n - 1];
    }
  }

  lemma IsMaximal(g: seq<StepGroup>, steps: seq<NodeStep>, k: nat)
    requires IsGrouping(g, steps, |steps|) && k < |g|
    ensures EndOf(g[k]) < |steps| ==> !SameKey(g[k].step, steps[EndOf(g[k])])
  {
    if k + 1 < |g| {
      assert IsGroup(g[k + 1], steps, |steps|);
    }
  }
}
