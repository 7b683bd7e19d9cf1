/** The gateway's own REST API as the adapter reaches it (local_api.py): which ports a request
    probes, in what order, when it sends twice, when it stops, and what it raises. */
module LocalApis {
  import opened Wrappers

  const API_SERVER_PORT := 8642
  const DASHBOARD_PORTS := [9119, 9120]

  /** What one send comes back with: a body, an HTTP error, or any other failure. */
  datatype Answer = Ok(body: string) | Http(code: int, detail: string) | Lost(detail: string)

  datatype Send = Send(port: int, token: string, answer: Answer)

  datatype Outcome = Answered(body: string) | Missing | Raised(error: Answer) | Unreachable

  /** What the local services would answer. The clock counts the sends made; `pages` is the token
      found in the served page at that moment, and "" stands for no token throughout. */
  datatype World = World(answers: (nat, int, string) -> Answer, pages: (nat, int) -> string, env: string)

  /** The known-good port and the session tokens by port. */
  datatype Api = Api(port: Option<int>, tokens: map<int, string>)

  datatype Stretch = Stretch(api: Api, sent: seq<Send>, settled: bool)

  // ------------------------------------------------------------------ candidates

  datatype Dashboard = Dashboard(port: int, profile: string)

  /** The first mention of each port, in order. */
  function FirstMentions(ports: seq<int>): seq<int> {
    if ports == [] then []
    else
      var earlier, last := ports[..|ports| - 1], ports[|ports| - 1];
      FirstMentions(earlier) + if last in earlier then [] else [last]
  }

  ghost predicate Distinct<T>(s: seq<T>) {
    forall i, j :: 0 <= i < j < |s| ==> s[i] != s[j]
  }

  method Dedupe(ports: seq<int>) returns (ordered: seq<int>)
    ensures ordered == FirstMentions(ports)
  {
    ordered := [];
    var seen: set<int> := {};
    for k := 0 to |ports|
      invariant ordered == FirstMentions(ports[..k])
      invariant forall p :: p in seen <==> p in ports[..k]
    {
      assert ports[..k + 1][..k] == ports[..k];
      if ports[k] !in seen {
        seen := seen + {ports[k]};
        ordered := ordered + [ports[k]];
      }
    }
    assert ports[..|ports|] == ports;
  }

  /** Nothing lost, nothing twice. */
  lemma {:induction false} FirstMentionsAreDistinct(ports: seq<int>)
    ensures Distinct(FirstMentions(ports))
    ensures forall p :: p in FirstMentions(ports) <==> p in ports
  {
    if ports != [] {
      var earlier, last := ports[..|ports| - 1], ports[|ports| - 1];
      assert ports == earlier + [last];
      FirstMentionsAreDistinct(earlier);
      assert forall p :: p in ports <==> p in earlier || p == last;
    }
  }

  /** And in order: whatever follows a list only adds at its end. */
  lemma {:induction false} FirstMentionsKeepOrder(ports: seq<int>, more: seq<int>)
    ensures FirstMentions(ports) <= FirstMentions(ports + more)
  {
    if more == [] {
      assert ports + more == ports;
    } else {
      var init := more[..|more| - 1];
      FirstMentionsKeepOrder(ports, init);
      assert (ports + more)[..|ports + more| - 1] == ports + init;
    }
  }

  /** Who runs the dashboard on a port, as far as the process scan can tell. */
  function OwnerOf(owners: seq<Dashboard>, port: int): Option<string> {
    if owners == [] then None
    else if owners[0].port == port then Some(owners[0].profile)
    else OwnerOf(owners[1..], port)
  }

  predicate Foreign(owners: seq<Dashboard>, own: string, port: int) {
    var owner := OwnerOf(owners, port);
    owner.Some? && owner.value != own
  }

  function PortsOf(owners: seq<Dashboard>, own: string): seq<int> {
    if owners == [] then []
    else (if owners[0].profile == own then [owners[0].port] else []) + PortsOf(owners[1..], own)
  }

  function Kept(owners: seq<Dashboard>, own: string, ports: seq<int>): seq<int> {
    if ports == [] then []
    else (if Foreign(owners, own, ports[0]) then [] else [ports[0]]) + Kept(owners, own, ports[1..])
  }

  function Listed(o: Option<int>): seq<int> {
    if o.Some? then [o.value] else []
  }

  /** A cached port that turns out to be another profile's is forgotten with its token. */
  function Vetted(api: Api, owners: seq<Dashboard>, own: string): Api {
    if api.port.Some? && Foreign(owners, own, api.port.value) then Api(None, api.tokens - {api.port.value}) else api
  }

  lemma {:induction false} OwnPorts(owners: seq<Dashboard>, own: string, port: int)
    requires forall i, j :: 0 <= i < j < |owners| ==> owners[i].port != owners[j].port
    ensures port in PortsOf(owners, own) <==> OwnerOf(owners, port) == Some(own)
    ensures OwnerOf(owners, port).Some? ==> exists i :: 0 <= i < |owners| && owners[i].port == port
  {
    if owners != [] {
      OwnPorts(owners[1..], own, port);
    }
  }

  function Candidates(api: Api, owners: seq<Dashboard>, own: string, override: Option<int>): seq<int> {
    Listed(override) + Listed(Vetted(api, owners, own).port) + PortsOf(owners, own) + Kept(owners, own, DASHBOARD_PORTS)
  }

  function PortsToProbe(api: Api, owners: seq<Dashboard>, own: string, override: Option<int>): seq<int> {
    FirstMentions(FirstMentions(Candidates(api, owners, own, override)) + [API_SERVER_PORT])
  }

  lemma {:induction false} KeptPorts(owners: seq<Dashboard>, own: string, ports: seq<int>, port: int)
    ensures port in Kept(owners, own, ports) <==> port in ports && !Foreign(owners, own, port)
  {
    if ports != [] {
      KeptPorts(owners, own, ports[1..], port);
      assert port in ports <==> port == ports[0] || port in ports[1..];
    }
  }

  lemma ProbedPorts(api: Api, owners: seq<Dashboard>, own: string, override: Option<int>, port: int)
    ensures Distinct(PortsToProbe(api, owners, own, override))
    ensures port in PortsToProbe(api, owners, own, override) <==>
              || override == Some(port) || Vetted(api, owners, own).port == Some(port) || port == API_SERVER_PORT
              || port in PortsOf(owners, own) || (port in DASHBOARD_PORTS && !Foreign(owners, own, port))
  {
    var candidates := Candidates(api, owners, own, override);
    FirstMentionsAreDistinct(candidates);
    FirstMentionsAreDistinct(FirstMentions(candidates) + [API_SERVER_PORT]);
    KeptPorts(owners, own, DASHBOARD_PORTS, port);
    assert port in FirstMentions(candidates) + [API_SERVER_PORT] <==> port in candidates || port == API_SERVER_PORT;
  }

  /** A request probes no port twice and always ends up with something to probe. A port the scan
      calls another profile's is probed exactly when the operator named it or it is the
      api_server's; a port of this profile always is. */
  lemma ProbesOwnProfile(api: Api, owners: seq<Dashboard>, own: string, override: Option<int>, port: int)
    requires forall i, j :: 0 <= i < j < |owners| ==> owners[i].port != owners[j].port
    ensures Distinct(PortsToProbe(api, owners, own, override))
    ensures API_SERVER_PORT in PortsToProbe(api, owners, own, override)
    ensures Foreign(owners, own, port) ==>
              (port in PortsToProbe(api, owners, own, override) <==> override == Some(port) || port == API_SERVER_PORT)
    ensures OwnerOf(owners, port) == Some(own) ==> port in PortsToProbe(api, owners, own, override)
    ensures OwnerOf(owners, port) == None ==>
              (port in PortsToProbe(api, owners, own, override) <==>
                 || port == API_SERVER_PORT || port in DASHBOARD_PORTS
                 || override == Some(port) || api.port == Some(port))
  {
    ProbedPorts(api, owners, own, override, port);
    ProbedPorts(api, owners, own, override, API_SERVER_PORT);
    OwnPorts(owners, own, port);
  }

  lemma FirstStaysFirst(ports: seq<int>)
    requires ports != []
    ensures FirstMentions(ports) != [] && FirstMentions(ports)[0] == ports[0]
  {
    FirstMentionsKeepOrder(ports[..1], ports[1..]);
    assert ports[..1] + ports[1..] == ports;
    assert FirstMentions(ports[..1]) == [ports[0]];
  }

  /** The operator's own choice goes first. */
  lemma OverrideFirst(api: Api, owners: seq<Dashboard>, own: string, port: int)
    ensures var ports := PortsToProbe(api, owners, own, Some(port)); ports != [] && ports[0] == port
  {
    var candidates := Candidates(api, owners, own, Some(port));
    assert candidates[0] == port;
    FirstStaysFirst(candidates);
    FirstStaysFirst(FirstMentions(candidates) + [API_SERVER_PORT]);
  }

  lemma {:induction false} DistinctStays(ports: seq<int>)
    requires Distinct(ports)
    ensures FirstMentions(ports) == ports
  {
    if ports != [] {
      var earlier, last := ports[..|ports| - 1], ports[|ports| - 1];
      DistinctStays(earlier);
      assert forall i :: 0 <= i < |earlier| ==> earlier[i] == ports[i];
      assert ports == earlier + [last];
    }
  }

  lemma StaysAhead(ports: seq<int>, more: seq<int>)
    ensures FirstMentions(ports) <= FirstMentions(FirstMentions(ports + more) + [API_SERVER_PORT])
  {
    FirstMentionsKeepOrder(ports, more);
    FirstMentionsAreDistinct(ports + more);
    DistinctStays(FirstMentions(ports + more));
    FirstMentionsKeepOrder(FirstMentions(ports + more), [API_SERVER_PORT]);
  }

  /** The ports are probed in this order: the operator's, the cached one if it is not another
      profile's, this profile's as the scan found them, and only then the usual ones. */
  lemma KnownPortsFirst(api: Api, owners: seq<Dashboard>, own: string, override: Option<int>)
    ensures var named := if override.Some? then [override.value] else [];
            var cached := if api.port.Some? && !Foreign(owners, own, api.port.value) then [api.port.value] else [];
            FirstMentions(named + cached + PortsOf(owners, own)) <= PortsToProbe(api, owners, own, override)
  {
    StaysAhead(Listed(override) + Listed(Vetted(api, owners, own).port) + PortsOf(owners, own), Kept(owners, own, DASHBOARD_PORTS));
  }

  // ------------------------------------------------------------------ one port, all ports

  /** The cached token, else the environment's, else the served page's; what is found is kept. */
  function TokenFor(w: World, api: Api, clock: nat, port: int): (Api, string) {
    if port in api.tokens && api.tokens[port] != "" then (api, api.tokens[port])
    else
      var found := if w.env != "" then w.env else w.pages(clock, port);
      (if found == "" then api else api.(tokens := api.tokens[port := found]), found)
  }

  function Pin(api: Api, port: int): Api {
    api.(port := Some(port))
  }

  function Unpin(api: Api, port: int): Api {
    if api.port == Some(port) then api.(port := None) else api
  }

  /** After a refused token: dropped, fetched again, and sent once more if it is another one. */
  function Refresh(w: World, api: Api, clock: nat, port: int, refused: Send): Stretch {
    var (again, newer) := TokenFor(w, api.(tokens := api.tokens - {port}), clock, port);
    if newer == "" || newer == refused.token then Stretch(again, [refused], false)
    else
      var retried := w.answers(clock, port, newer);
      Stretch(if retried.Ok? then Pin(again, port) else again, [refused, Send(port, newer, retried)], retried.Ok?)
  }

  /** One port's turn: settled when the request ends there. */
  function Visit(w: World, api: Api, clock: nat, port: int): Stretch {
    var (asked, token) := TokenFor(w, api, clock, port);
    var first := Send(port, token, w.answers(clock, port, token));
    match first.answer
    case Ok(_) => Stretch(Pin(asked, port), [first], true)
    case Lost(_) => Stretch(Unpin(asked, port), [first], false)
    case Http(code, _) =>
      if code == 404 then Stretch(Unpin(asked, port), [first], false)
      else if code == 401 then Refresh(w, asked, clock + 1, port, first)
      else Stretch(Pin(asked, port), [first], true)
  }

  /** The ports in order, until one settles the request; `visit` is a port's turn. */
  function Probe(visit: (Api, nat, int) -> Stretch, api: Api, clock: nat, ports: seq<int>): Stretch
    decreases |ports|
  {
    if ports == [] then Stretch(api, [], false)
    else
      var v := visit(api, clock, ports[0]);
      if v.settled then v
      else
        var rest := Probe(visit, v.api, clock + |v.sent|, ports[1..]);
        Stretch(rest.api, v.sent + rest.sent, rest.settled)
  }

  function Turns(w: World): (Api, nat, int) -> Stretch {
    (api: Api, clock: nat, port: int) => Visit(w, api, clock, port)
  }

  /** `visit` is what one turn does. */
  ghost predicate Models(w: World, visit: (Api, nat, int) -> Stretch) {
    forall api: Api, clock: nat, port: int :: ModelsAt(w, visit, api, clock, port)
  }

  ghost predicate ModelsAt(w: World, visit: (Api, nat, int) -> Stretch, api: Api, clock: nat, port: int) {
    visit(api, clock, port) == Visit(w, api, clock, port)
  }

  lemma TurnsModel(w: World)
    ensures Models(w, Turns(w))
  {
  }

  /** The first send of a port's turn. */
  predicate FirstTry(sent: seq<Send>, i: nat)
    requires i < |sent|
  {
    i == 0 || sent[i - 1].port != sent[i].port
  }

  /** The dashboard's own "not found". */
  predicate DashboardMissing(sent: seq<Send>, i: nat)
    requires i < |sent|
  {
    && FirstTry(sent, i) && sent[i].port != API_SERVER_PORT
    && sent[i].answer.Http? && sent[i].answer.code == 404
  }

  function FirstMissing(sent: seq<Send>): Option<Answer> {
    if sent == [] then None
    else
      var earlier := FirstMissing(sent[..|sent| - 1]);
      if earlier.Some? then earlier
      else if DashboardMissing(sent, |sent| - 1) then Some(sent[|sent| - 1].answer)
      else None
  }

  lemma MissingSnoc(sent: seq<Send>, send: Send)
    ensures FirstMissing(sent + [send])
         == if FirstMissing(sent).None? && DashboardMissing(sent + [send], |sent|) then Some(send.answer) else FirstMissing(sent)
  {
    assert (sent + [send])[..|sent|] == sent;
  }

  /** A dashboard's 404 is kept unless one is kept already. */
  function NextMissing(kept: Option<Answer>, first: Send): Option<Answer> {
    if kept.None? && first.port != API_SERVER_PORT && first.answer.Http? && first.answer.code == 404 then Some(first.answer)
    else kept
  }

  /** What the loop over the ports remembers of its sends. */
  ghost predicate Noted(sent: seq<Send>, last: Option<int>, lastError: Option<Answer>, dashboard404: Option<Answer>) {
    && dashboard404 == FirstMissing(sent)
    && last == (if sent == [] then None else Some(sent[|sent| - 1].port))
    && lastError == if sent == [] then None else Some(sent[|sent| - 1].answer)
  }

  lemma NoteTurn(sent: seq<Send>, last: Option<int>, lastError: Option<Answer>, dashboard404: Option<Answer>, turn: seq<Send>)
    requires Noted(sent, last, lastError, dashboard404)
    requires 1 <= |turn| <= 2 && turn[0].port == turn[|turn| - 1].port && last != Some(turn[0].port)
    ensures Noted(sent + turn, Some(turn[0].port), Some(turn[|turn| - 1].answer), NextMissing(dashboard404, turn[0]))
  {
    MissingSnoc(sent, turn[0]);
    if |turn| == 1 {
      assert turn == [turn[0]];
    } else {
      MissingSnoc(sent + [turn[0]], turn[1]);
      assert sent + turn == sent + [turn[0]] + [turn[1]];
    }
  }

  /** How the request ends, given its sends. */
  function Verdict(sent: seq<Send>, settled: bool): Outcome
    requires settled ==> sent != []
  {
    if settled then
      (match sent[|sent| - 1].answer
       case Ok(body) => Answered(body)
       case error => Raised(error))
    else if FirstMissing(sent).Some? then Raised(FirstMissing(sent).value)
    else if sent != [] then Raised(sent[|sent| - 1].answer)
    else Unreachable
  }

  /** How a GET on the known-good port reads its last answer. */
  function Reading(answer: Answer): Outcome {
    match answer
    case Ok(body) => Answered(body)
    case Http(code, _) => if code == 404 then Missing else Raised(answer)
    case Lost(_) => Raised(answer)
  }

  /** A discovery that ends the GET: answered, not found, or with no port to ask again. */
  predicate Concludes(r: Stretch)
    requires r.settled ==> r.sent != []
  {
    var verdict := Verdict(r.sent, r.settled);
    r.api.port == None || verdict.Answered? || (verdict.Raised? && Reading(verdict.error).Missing?)
  }

  ghost predicate AsksAgain(before: seq<Send>, port: int, sent: seq<Send>, outcome: Outcome) {
    && before < sent && (forall i :: |before| <= i < |sent| ==> sent[i].port == port)
    && outcome == Reading(sent[|sent| - 1].answer)
  }

  function Discovered(r: Stretch): Outcome
    requires r.settled ==> r.sent != []
  {
    var verdict := Verdict(r.sent, r.settled);
    if verdict.Raised? && Reading(verdict.error).Missing? then Missing else verdict
  }

  ghost predicate ContinuesAs(whole: Stretch, sent: seq<Send>, rest: Stretch) {
    whole == Stretch(rest.api, sent + rest.sent, rest.settled)
  }

  lemma ProbeStart(visit: (Api, nat, int) -> Stretch, api: Api, ports: seq<int>)
    ensures ContinuesAs(Probe(visit, api, 0, ports), [], Probe(visit, api, 0, ports[0..]))
  {
    assert ports[0..] == ports;
    assert [] + Probe(visit, api, 0, ports).sent == Probe(visit, api, 0, ports).sent;
  }

  /** One step of the probe, seen from the middle of it. */
  lemma ProbeTurn(visit: (Api, nat, int) -> Stretch, api: Api, ports: seq<int>, k: nat, whole: Stretch, sent: seq<Send>)
    requires k < |ports|
    requires ContinuesAs(whole, sent, Probe(visit, api, |sent|, ports[k..]))
    ensures var v := visit(api, |sent|, ports[k]);
            && (v.settled ==> whole == Stretch(v.api, sent + v.sent, true))
            && (!v.settled ==> ContinuesAs(whole, sent + v.sent, Probe(visit, v.api, |sent + v.sent|, ports[k + 1..])))
  {
    var v := visit(api, |sent|, ports[k]);
    assert ports[k..][1..] == ports[k + 1..];
    if !v.settled {
      var rest := Probe(visit, v.api, |sent| + |v.sent|, ports[k + 1..]);
      assert sent + (v.sent + rest.sent) == (sent + v.sent) + rest.sent;
    }
  }

  lemma ProbeEnd(visit: (Api, nat, int) -> Stretch, api: Api, ports: seq<int>, whole: Stretch, sent: seq<Send>)
    requires ContinuesAs(whole, sent, Probe(visit, api, |sent|, ports[|ports|..]))
    ensures whole == Stretch(api, sent, false)
  {
    assert ports[|ports|..] == [];
    assert sent + [] == sent;
  }

  // ------------------------------------------------------------------ the object

  class LocalApi {
    var port: Option<int>
    var tokens: map<int, string>

    ghost function View(): Api
      reads this
    {
      Api(port, tokens)
    }

    constructor ()
      ensures View() == Api(None, map[])
    {
      port, tokens := None, map[];
    }

    method DropPortCache(which: Option<int>)
      modifies this
      ensures which == None && old(port) == None ==> View() == old(View())
      ensures var target := if which.Some? then which else old(port);
              target.Some? ==> View() == Api(Unpin(old(View()), target.value).port, old(tokens) - {target.value})
    {
      var target := if which.Some? then which else port;
      if target.Some? {
        if port == target {
          port := None;
        }
        tokens := tokens - {target.value};
      }
    }

    method FindPorts(owners: seq<Dashboard>, own: string, override: Option<int>) returns (ports: seq<int>)
      modifies this
      ensures View() == Vetted(old(View()), owners, own)
      ensures ports == PortsToProbe(old(View()), owners, own, override)
    {
      if port.Some? && Foreign(owners, own, port.value) {
        DropPortCache(port);
      }
      var known := Listed(override) + Listed(port);
      var dashboards := Dedupe(known + PortsOf(owners, own) + Kept(owners, own, DASHBOARD_PORTS));
      ports := Dedupe(dashboards + [API_SERVER_PORT]);
    }

    method Token(w: World, clock: nat, at: int) returns (token: string)
      modifies `tokens
      ensures (View(), token) == TokenFor(w, old(View()), clock, at)
    {
      if at in tokens && tokens[at] != "" {
        return tokens[at];
      }
      token := if w.env != "" then w.env else w.pages(clock, at);
      if token != "" {
        tokens := tokens[at := token];
      }
    }

    /** One port's turn within a request. */
    method Turn(w: World, ghost visit: (Api, nat, int) -> Stretch, clock: nat, at: int)
      returns (sent: seq<Send>, settled: bool)
      requires Models(w, visit)
      modifies this
      ensures Stretch(View(), sent, settled) == visit(old(View()), clock, at)
      ensures 1 <= |sent| <= 2 && sent[0].port == sent[|sent| - 1].port == at
      ensures settled ==> !sent[|sent| - 1].answer.Lost?
    {
      var token := Token(w, clock, at);
      var answer := w.answers(clock, at, token);
      sent, settled := [Send(at, token, answer)], false;
      assert ModelsAt(w, visit, old(View()), clock, at);
      match answer {
        case Ok(_) =>
          port, settled := Some(at), true;
        case Lost(_) =>
          if port == Some(at) {
            port := None;
          }
        case Http(code, _) =>
          if code != 401 && code != 404 {
            port, settled := Some(at), true;
          } else if code == 404 {
            if port == Some(at) {
              port := None;
            }
          } else {
            tokens := tokens - {at};
            var newer := Token(w, clock + 1, at);
            if newer != "" && newer != token {
              var retried := w.answers(clock + 1, at, newer);
              sent := sent + [Send(at, newer, retried)];
              if retried.Ok? {
                port, settled := Some(at), true;
              }
            }
          }
      }
    }

    /** The ports in turn, remembering what a failed request will raise. */
    method ProbePorts(w: World, ghost visit: (Api, nat, int) -> Stretch, ports: seq<int>)
      returns (sent: seq<Send>, settled: bool, lastError: Option<Answer>, dashboard404: Option<Answer>)
      requires Models(w, visit) && Distinct(ports)
      modifies this
      ensures Stretch(View(), sent, settled) == Probe(visit, old(View()), 0, ports)
      ensures settled ==> sent != []
      ensures !settled ==> exists last :: Noted(sent, last, lastError, dashboard404)
    {
      ghost var whole := Probe(visit, View(), 0, ports);
      lastError, dashboard404 := None, None;
      sent, settled := [], false;
      ProbeStart(visit, View(), ports);
      for k := 0 to |ports|
        invariant Noted(sent, if k == 0 then None else Some(ports[k - 1]), lastError, dashboard404)
        invariant ContinuesAs(whole, sent, Probe(visit, View(), |sent|, ports[k..]))
      {
        ProbeTurn(visit, View(), ports, k, whole, sent);
        var turn;
        turn, settled := Turn(w, visit, |sent|, ports[k]);
        NoteTurn(sent, if k == 0 then None else Some(ports[k - 1]), lastError, dashboard404, turn);
        sent := sent + turn;
        if settled {
          return;
        }
        if dashboard404 == None && ports[k] != API_SERVER_PORT && turn[0].answer.Http? && turn[0].answer.code == 404 {
          dashboard404 := Some(turn[0].answer);
        }
        lastError := Some(turn[|turn| - 1].answer);
      }
      settled := false;
      ProbeEnd(visit, View(), ports, whole, sent);
    }

    static method Conclude(sent: seq<Send>, settled: bool, lastError: Option<Answer>, dashboard404: Option<Answer>)
      returns (outcome: Outcome)
      requires settled ==> sent != []
      requires !settled ==> exists last :: Noted(sent, last, lastError, dashboard404)
      ensures outcome == Verdict(sent, settled)
    {
      if settled {
        var answer := sent[|sent| - 1].answer;
        outcome := if answer.Ok? then Answered(answer.body) else Raised(answer);
      } else {
        outcome := if dashboard404.Some? then Raised(dashboard404.value)
                   else if lastError.Some? then Raised(lastError.value) else Unreachable;
      }
    }

    /** Probe, cache, refresh a refused token: the outcome and every send made. */
    method Request(w: World, owners: seq<Dashboard>, own: string, override: Option<int>)
      returns (outcome: Outcome, sent: seq<Send>)
      modifies this
      ensures var r := Probe(Turns(w), Vetted(old(View()), owners, own), 0, PortsToProbe(old(View()), owners, own, override));
              View() == r.api && sent == r.sent && (r.settled ==> sent != []) && outcome == Verdict(sent, r.settled)
    {
      var ports := FindPorts(owners, own, override);
      ProbedPorts(old(View()), owners, own, override, 0);
      TurnsModel(w);
      var settled, lastError, dashboard404;
      sent, settled, lastError, dashboard404 := ProbePorts(w, Turns(w), ports);
      outcome := Conclude(sent, settled, lastError, dashboard404);
    }

    /** A GET on the known-good port only. An unknown session (404) is an answer there, so the port
        stays known; only a first send that meets no HTTP service at all forgets it. */
    method AskKnownPort(w: World, clock: nat) returns (outcome: Outcome, sent: seq<Send>)
      requires port.Some?
      modifies this
      ensures 1 <= |sent| <= 2 && forall i :: 0 <= i < |sent| ==> sent[i].port == old(port).value
      ensures |sent| == 2 ==> Refreshed(sent, 1)
      ensures TokensRight(w, old(View()), clock, sent)
      ensures outcome == Reading(sent[|sent| - 1].answer)
      ensures port == if sent[0].answer.Lost? then None else old(port)
      ensures forall p :: p != old(port).value ==> (p in tokens <==> p in old(tokens))
    {
      var at := port.value;
      var token := Token(w, clock, at);
      var answer := w.answers(clock, at, token);
      sent := [Send(at, token, answer)];
      match answer {
        case Ok(body) =>
          outcome := Answered(body);
        case Lost(_) =>
          if port == Some(at) {
            port := None;
          }
          outcome := Raised(answer);
        case Http(code, _) =>
          if code == 404 {
            outcome := Missing;
          } else if code == 401 {
            tokens := tokens - {at};
            var newer := Token(w, clock + 1, at);
            if newer != "" && newer != token {
              var retried := w.answers(clock + 1, at, newer);
              sent := sent + [Send(at, newer, retried)];
              outcome := match retried
                case Ok(body) => Answered(body)
                case Http(again, _) => if again == 404 then Missing else Raised(retried)
                case Lost(_) => Raised(retried);
            } else {
              outcome := Raised(answer);
            }
          } else {
            outcome := Raised(answer);
          }
      }
    }

    /** After a discovering request: a success or a 404 concludes, and so does a failure that
        pinned no port; any other failure is asked again on the port it pinned. */
    method ConcludeOrAskAgain(w: World, ghost r: Stretch, verdict: Outcome, asked: seq<Send>)
      returns (outcome: Outcome, sent: seq<Send>)
      requires (r.settled ==> r.sent != []) && View() == r.api && asked == r.sent
      requires verdict == Verdict(r.sent, r.settled)
      modifies this
      ensures Concludes(r) ==> sent == r.sent && View() == r.api && outcome == Discovered(r)
      ensures !Concludes(r) ==> r.api.port.Some? && AsksAgain(r.sent, r.api.port.value, sent, outcome)
      ensures verdict.Answered? ==> sent == asked && outcome == verdict
      ensures verdict.Raised? && verdict.error.Http? && verdict.error.code == 404 ==> sent == asked && outcome == Missing
      ensures !verdict.Answered? && !(verdict.Raised? && verdict.error.Http? && verdict.error.code == 404) ==>
                if r.api.port == None then sent == asked && outcome == verdict else AsksAgain(asked, r.api.port.value, sent, outcome)
    {
      outcome, sent := verdict, asked;
      if verdict.Raised? && verdict.error.Http? && verdict.error.code == 404 {
        outcome := Missing;
      } else if !verdict.Answered? && port.Some? {
        var more;
        outcome, more := AskKnownPort(w, |sent|);
        sent := sent + more;
        assert sent[|sent| - 1] == more[|more| - 1];
      }
    }

    /** Without a known port, discover one by a request first. */
    method GetOnWorkingPort(w: World, owners: seq<Dashboard>, own: string, override: Option<int>)
      returns (outcome: Outcome, sent: seq<Send>)
      modifies this
      ensures old(port).Some? ==>
                && sent != [] && (forall i :: 0 <= i < |sent| ==> sent[i].port == old(port).value)
                && outcome == Reading(sent[|sent| - 1].answer)
                && (port == old(port) <==> !sent[0].answer.Lost?)
      ensures old(port) == None ==>
                var r := Probe(Turns(w), old(View()), 0, PortsToProbe(old(View()), owners, own, override));
                && (r.settled ==> r.sent != [])
                && (Concludes(r) ==> sent == r.sent && View() == r.api && outcome == Discovered(r))
                && (!Concludes(r) ==> r.api.port.Some? && AsksAgain(r.sent, r.api.port.value, sent, outcome))
    {
      if port == None {
        ghost var r := Probe(Turns(w), View(), 0, PortsToProbe(View(), owners, own, override));
        outcome, sent := Request(w, owners, own, override);
        outcome, sent := ConcludeOrAskAgain(w, r, outcome, sent);
      } else {
        outcome, sent := AskKnownPort(w, 0);
      }
    }
  }

  // ------------------------------------------------------------------ what a request does

  /** A send that ends the request: any success, or a first try rejected by a live service. */
  predicate Decisive(sent: seq<Send>, i: nat)
    requires i < |sent|
  {
    var answer := sent[i].answer;
    answer.Ok? || (FirstTry(sent, i) && answer.Http? && answer.code != 401 && answer.code != 404)
  }

  /** A first try that shows the wrong service, or none, behind the port. */
  predicate Disproves(sent: seq<Send>, i: nat)
    requires i < |sent|
  {
    var answer := sent[i].answer;
    FirstTry(sent, i) && (answer.Lost? || (answer.Http? && answer.code == 404))
  }

  /** What is true of one port's turn. */
  ghost predicate IsTurn(v: Stretch, api: Api, port: int) {
    && 1 <= |v.sent| <= 2
    && (forall i :: 0 <= i < |v.sent| ==> v.sent[i].port == port)
    && (|v.sent| == 2 ==> Refreshed(v.sent, 1))
    && (v.settled <==> Decisive(v.sent, |v.sent| - 1))
    && v.api.port == (if v.settled then Some(port) else if Disproves(v.sent, 0) then Unpin(api, port).port else api.port)
    && (forall p :: p != port ==> (p in v.api.tokens <==> p in api.tokens))
    && (forall p :: p != port && p in api.tokens ==> v.api.tokens[p] == api.tokens[p])
  }

  lemma VisitIsTurn(w: World, api: Api, clock: nat, port: int)
    ensures IsTurn(Visit(w, api, clock, port), api, port)
  {
  }

  /** Send i repeats the one before it on the same port, with a new token, after a 401. */
  predicate Refreshed(sent: seq<Send>, i: nat)
    requires 1 <= i < |sent|
  {
    && sent[i - 1].port == sent[i].port && (i == 1 || sent[i - 2].port != sent[i].port)
    && sent[i - 1].answer.Http? && sent[i - 1].answer.code == 401
    && sent[i].token != "" && sent[i].token != sent[i - 1].token
  }

  /** Every send is a port's first, or repeats a refused first one. */
  ghost predicate OrderlySends(sent: seq<Send>) {
    && (forall i :: 0 <= i < |sent| ==> FirstTry(sent, i) || Refreshed(sent, i))
    && (forall i :: 0 <= i < |sent| - 1 ==> !Decisive(sent, i))
  }

  /** The ports sent to, in order. */
  function PortsTried(sent: seq<Send>): seq<int> {
    if sent == [] then []
    else
      PortsTried(sent[..|sent| - 1]) + if FirstTry(sent, |sent| - 1) then [sent[|sent| - 1].port] else []
  }

  ghost predicate Disproved(sent: seq<Send>, port: int) {
    exists i :: 0 <= i < |sent| && sent[i].port == port && Disproves(sent, i)
  }

  /** Where the known-good port ends up. */
  ghost function PortAfter(before: Option<int>, sent: seq<Send>): Option<int> {
    if sent != [] && Decisive(sent, |sent| - 1) then Some(sent[|sent| - 1].port)
    else if before.Some? && Disproved(sent, before.value) then None
    else before
  }

  lemma Behind(turn: seq<Send>, sent: seq<Send>, i: nat)
    requires turn != [] && i < |sent|
    requires turn[|turn| - 1].port != sent[0].port
    ensures (turn + sent)[|turn| + i] == sent[i]
    ensures FirstTry(turn + sent, |turn| + i) == FirstTry(sent, i)
    ensures i > 0 ==> Refreshed(turn + sent, |turn| + i) == Refreshed(sent, i)
  {
    if i > 0 {
      assert (turn + sent)[|turn| + i - 1] == sent[i - 1];
      if i > 1 {
        assert (turn + sent)[|turn| + i - 2] == sent[i - 2];
      }
    }
  }

  lemma Ahead(turn: seq<Send>, sent: seq<Send>, i: nat)
    requires i < |turn|
    ensures FirstTry(turn + sent, i) == FirstTry(turn, i)
    ensures i > 0 ==> Refreshed(turn + sent, i) == Refreshed(turn, i)
  {
  }

  lemma OrderlyConcat(turn: seq<Send>, sent: seq<Send>)
    requires turn != [] && OrderlySends(turn) && OrderlySends(sent)
    requires !Decisive(turn, |turn| - 1)
    requires sent == [] || turn[|turn| - 1].port != sent[0].port
    ensures OrderlySends(turn + sent)
    ensures sent != [] ==> (Decisive(turn + sent, |turn + sent| - 1) <==> Decisive(sent, |sent| - 1))
  {
    forall i | 0 <= i < |turn + sent|
      ensures FirstTry(turn + sent, i) || Refreshed(turn + sent, i)
      ensures i < |turn| ==> Decisive(turn + sent, i) == Decisive(turn, i)
      ensures i >= |turn| ==> Decisive(turn + sent, i) == Decisive(sent, i - |turn|)
    {
      if i < |turn| {
        Ahead(turn, sent, i);
      } else {
        Behind(turn, sent, i - |turn|);
      }
    }
    if sent == [] {
      assert turn + sent == turn;
    }
  }

  lemma TurnIsOrderly(v: Stretch, api: Api, port: int)
    requires IsTurn(v, api, port)
    ensures OrderlySends(v.sent)
  {
  }

  lemma {:induction false} TriedConcat(turn: seq<Send>, sent: seq<Send>)
    requires turn != []
    requires sent == [] || turn[|turn| - 1].port != sent[0].port
    ensures PortsTried(turn + sent) == PortsTried(turn) + PortsTried(sent)
  {
    if sent == [] {
      assert turn + sent == turn;
    } else {
      var init := sent[..|sent| - 1];
      TriedConcat(turn, init);
      Behind(turn, sent, |sent| - 1);
      assert (turn + sent)[..|turn + sent| - 1] == turn + init;
    }
  }

  lemma TurnTries(v: Stretch, api: Api, port: int)
    requires IsTurn(v, api, port)
    ensures PortsTried(v.sent) == [port]
  {
    assert PortsTried([v.sent[0]]) == [port];
    assert v.sent[..1] == [v.sent[0]];
    if |v.sent| == 1 {
      assert v.sent == [v.sent[0]];
    }
  }

  lemma DisprovedConcat(turn: seq<Send>, sent: seq<Send>, port: int)
    requires turn != []
    requires sent == [] || turn[|turn| - 1].port != sent[0].port
    ensures Disproved(turn + sent, port) <==> Disproved(turn, port) || Disproved(sent, port)
  {
    forall i | 0 <= i < |turn|
      ensures Disproves(turn + sent, i) == Disproves(turn, i) && (turn + sent)[i] == turn[i]
    {
      Ahead(turn, sent, i);
    }
    forall i | 0 <= i < |sent|
      ensures Disproves(turn + sent, |turn| + i) == Disproves(sent, i) && (turn + sent)[|turn| + i] == sent[i]
    {
      Behind(turn, sent, i);
    }
    forall i | |turn| <= i < |turn + sent|
      ensures Disproves(turn + sent, i) == Disproves(sent, i - |turn|) && (turn + sent)[i] == sent[i - |turn|]
    {
      Behind(turn, sent, i - |turn|);
    }
  }

  /** The sends go to the given ports, orderly, and the request is settled exactly by a decisive one. */
  ghost predicate Orderly(ports: seq<int>, r: Stretch) {
    && (forall i :: 0 <= i < |r.sent| ==> r.sent[i].port in ports)
    && (ports != [] ==> r.sent != [] && r.sent[0].port == ports[0])
    && OrderlySends(r.sent)
    && (r.settled <==> r.sent != [] && Decisive(r.sent, |r.sent| - 1))
  }

  /** No port skipped, and none left out unless the request was settled. */
  ghost predicate Covers(ports: seq<int>, r: Stretch) {
    PortsTried(r.sent) <= ports && (r.settled || PortsTried(r.sent) == ports)
  }

  ghost predicate Pins(api: Api, r: Stretch) {
    r.api.port == PortAfter(api.port, r.sent)
  }

  function Joined(v: Stretch, rest: Stretch): Stretch {
    Stretch(rest.api, v.sent + rest.sent, rest.settled)
  }

  lemma TurnAlone(v: Stretch, api: Api, ports: seq<int>)
    requires ports != [] && IsTurn(v, api, ports[0]) && v.settled
    ensures Orderly(ports, v) && Covers(ports, v) && Pins(api, v)
  {
    TurnIsOrderly(v, api, ports[0]);
    TurnTries(v, api, ports[0]);
  }

  lemma JoinApart(v: Stretch, api: Api, ports: seq<int>, rest: Stretch)
    requires Distinct(ports) && ports != [] && IsTurn(v, api, ports[0]) && !v.settled && Orderly(ports[1..], rest)
    ensures rest.sent == [] || v.sent[|v.sent| - 1].port != rest.sent[0].port
    ensures rest.sent == [] ==> v.sent + rest.sent == v.sent && ports == [ports[0]]
  {
    if rest.sent != [] {
      assert rest.sent[0].port in ports[1..];
    }
  }

  lemma JoinOrderly(v: Stretch, api: Api, ports: seq<int>, rest: Stretch)
    requires Distinct(ports) && ports != [] && IsTurn(v, api, ports[0]) && !v.settled && Orderly(ports[1..], rest)
    ensures Orderly(ports, Joined(v, rest))
  {
    JoinApart(v, api, ports, rest);
    TurnIsOrderly(v, api, ports[0]);
    OrderlyConcat(v.sent, rest.sent);
    forall i | 0 <= i < |v.sent + rest.sent| ensures (v.sent + rest.sent)[i].port in ports {
      if i < |v.sent| {
        assert v.sent[i].port == ports[0];
      } else {
        assert rest.sent[i - |v.sent|].port in ports[1..];
      }
    }
  }

  lemma JoinCovers(v: Stretch, api: Api, ports: seq<int>, rest: Stretch)
    requires Distinct(ports) && ports != [] && IsTurn(v, api, ports[0]) && !v.settled
    requires Orderly(ports[1..], rest) && Covers(ports[1..], rest)
    ensures Covers(ports, Joined(v, rest))
  {
    JoinApart(v, api, ports, rest);
    TurnTries(v, api, ports[0]);
    TriedConcat(v.sent, rest.sent);
    assert ports == [ports[0]] + ports[1..];
  }

  lemma JoinPins(v: Stretch, api: Api, ports: seq<int>, rest: Stretch)
    requires Distinct(ports) && ports != [] && IsTurn(v, api, ports[0]) && !v.settled
    requires Orderly(ports[1..], rest) && Pins(v.api, rest)
    ensures Pins(api, Joined(v, rest))
  {
    JoinApart(v, api, ports, rest);
    TurnIsOrderly(v, api, ports[0]);
    OrderlyConcat(v.sent, rest.sent);
    if api.port.Some? {
      DisprovedConcat(v.sent, rest.sent, api.port.value);
      assert Disproved(v.sent, api.port.value) <==> api.port.value == ports[0] && Disproves(v.sent, 0);
    }
  }

  /** What holds of a settled turn, and of a turn joined to what follows when it holds of that,
      holds of the whole probe. */
  ghost predicate ProbeMeets(api: Api, ports: seq<int>, r: Stretch) {
    Orderly(ports, r) && Covers(ports, r) && Pins(api, r)
  }

  lemma JoinMeets(v: Stretch, api: Api, ports: seq<int>, rest: Stretch)
    requires Distinct(ports) && ports != [] && IsTurn(v, api, ports[0]) && !v.settled
    requires ProbeMeets(v.api, ports[1..], rest)
    ensures ProbeMeets(api, ports, Joined(v, rest))
  {
    JoinOrderly(v, api, ports, rest);
    JoinCovers(v, api, ports, rest);
    JoinPins(v, api, ports, rest);
  }

  lemma NothingMeets(api: Api)
    ensures ProbeMeets(api, [], Stretch(api, [], false))
  {
  }

  /** One step of an induction over the ports: a turn that settles meets what is claimed, and so
      does any other turn joined to a rest that does. */
  ghost predicate Steps(visit: (Api, nat, int) -> Stretch, claim: (Api, seq<int>, Stretch) -> bool,
                        api: Api, clock: nat, ports: seq<int>)
    requires ports != []
  {
    var v := visit(api, clock, ports[0]);
    && (v.settled ==> claim(api, ports, v))
    && (!v.settled ==> forall rest :: claim(v.api, ports[1..], rest) ==> claim(api, ports, Joined(v, rest)))
  }

  lemma {:induction false} ProbeInduction(visit: (Api, nat, int) -> Stretch, claim: (Api, seq<int>, Stretch) -> bool,
                                          api: Api, clock: nat, ports: seq<int>)
    requires Distinct(ports)
    requires forall a: Api :: claim(a, [], Stretch(a, [], false))
    requires forall a: Api, c: nat, p: seq<int> | p != [] && Distinct(p) :: Steps(visit, claim, a, c, p)
    ensures claim(api, ports, Probe(visit, api, clock, ports))
    decreases |ports|
  {
    if ports != [] {
      var v := visit(api, clock, ports[0]);
      assert Steps(visit, claim, api, clock, ports);
      if !v.settled {
        ProbeInduction(visit, claim, v.api, clock + |v.sent|, ports[1..]);
      }
    }
  }

  lemma TurnSteps(w: World, api: Api, clock: nat, ports: seq<int>)
    requires ports != [] && Distinct(ports)
    ensures Steps(Turns(w), Meets(), api, clock, ports)
  {
    var v := Visit(w, api, clock, ports[0]);
    VisitIsTurn(w, api, clock, ports[0]);
    if v.settled {
      TurnAlone(v, api, ports);
    } else {
      forall rest | ProbeMeets(v.api, ports[1..], rest)
        ensures ProbeMeets(api, ports, Joined(v, rest))
      {
        JoinMeets(v, api, ports, rest);
      }
    }
  }

  ghost function Meets(): (Api, seq<int>, Stretch) -> bool {
    (api: Api, ports: seq<int>, r: Stretch) => ProbeMeets(api, ports, r)
  }

  lemma RequestMeets(w: World, api: Api, ports: seq<int>)
    requires Distinct(ports)
    ensures ProbeMeets(api, ports, Probe(Turns(w), api, 0, ports))
  {
    ProbesMeet(w, api, 0, ports);
  }

  lemma ProbesMeet(w: World, api: Api, clock: nat, ports: seq<int>)
    requires Distinct(ports)
    ensures ProbeMeets(api, ports, Probe(Turns(w), api, clock, ports))
  {
    forall a: Api ensures Meets()(a, [], Stretch(a, [], false)) {
      NothingMeets(a);
    }
    forall a: Api, c: nat, p: seq<int> | p != [] && Distinct(p)
      ensures Steps(Turns(w), Meets(), a, c, p)
    {
      TurnSteps(w, a, c, p);
    }
    ProbeInduction(Turns(w), Meets(), api, clock, ports);
    assert Meets()(api, ports, Probe(Turns(w), api, clock, ports));
  }

  lemma {:induction false} TriedAll(sent: seq<Send>, i: nat)
    requires OrderlySends(sent) && i < |sent|
    ensures sent[i].port in PortsTried(sent)
  {
    var init := sent[..|sent| - 1];
    OrderlyPrefix(sent);
    if i < |init| {
      TriedAll(init, i);
    } else if !FirstTry(sent, i) {
      TriedAll(init, i - 1);
    }
  }

  lemma OrderlyPrefix(sent: seq<Send>)
    requires OrderlySends(sent) && sent != []
    ensures OrderlySends(sent[..|sent| - 1])
  {
    var init := sent[..|sent| - 1];
    forall i | 0 <= i < |init|
      ensures FirstTry(init, i) || Refreshed(init, i)
      ensures !Decisive(init, i)
    {
      assert FirstTry(init, i) == FirstTry(sent, i);
      assert i > 0 ==> Refreshed(init, i) == Refreshed(sent, i);
      assert Decisive(init, i) == Decisive(sent, i);
    }
  }

  lemma NotBefore(tried: seq<int>, port: int)
    requires Distinct(tried + [port])
    ensures port !in tried
  {
    forall x | 0 <= x < |tried| ensures tried[x] != port {
      assert (tried + [port])[x] == tried[x] && (tried + [port])[|tried|] == port;
    }
  }

  /** Two sends to one port: they are neighbours, and the second is the refresh after a 401. */
  lemma {:induction false} TwiceIsRefreshed(sent: seq<Send>, i: nat, j: nat)
    requires OrderlySends(sent) && Distinct(PortsTried(sent))
    requires i < j < |sent| && sent[i].port == sent[j].port
    ensures j == i + 1 && Refreshed(sent, j)
    decreases |sent|, j
  {
    var init := sent[..|sent| - 1];
    OrderlyPrefix(sent);
    assert Distinct(PortsTried(init)) by {
      assert PortsTried(init) <= PortsTried(sent);
    }
    if j < |init| {
      TwiceIsRefreshed(init, i, j);
    } else if FirstTry(sent, j) {
      TriedAll(init, i);
      NotBefore(PortsTried(init), sent[j].port);
      assert false;
    } else if i < j - 1 {
      TwiceIsRefreshed(init, i, j - 1);
      assert false;
    }
  }

  lemma {:induction false} FirstMissingIsFirst(sent: seq<Send>)
    ensures FirstMissing(sent) == None <==> forall i :: 0 <= i < |sent| ==> !DashboardMissing(sent, i)
    ensures FirstMissing(sent).Some? ==>
              exists i :: 0 <= i < |sent| && IsFirstMissing(sent, i) && FirstMissing(sent).value == sent[i].answer
  {
    if sent != [] {
      var init := sent[..|sent| - 1];
      FirstMissingIsFirst(init);
      assert forall i :: 0 <= i < |init| ==> DashboardMissing(init, i) == DashboardMissing(sent, i);
      if FirstMissing(init).Some? {
        var i :| 0 <= i < |init| && IsFirstMissing(init, i) && FirstMissing(init).value == init[i].answer;
        assert IsFirstMissing(sent, i);
      } else if FirstMissing(sent).Some? {
        assert IsFirstMissing(sent, |sent| - 1);
      }
    }
  }

  ghost predicate IsFirstMissing(sent: seq<Send>, i: nat)
    requires i < |sent|
  {
    DashboardMissing(sent, i) && forall j :: 0 <= j < i ==> !DashboardMissing(sent, j)
  }

  ghost predicate NoNeedlessSend(sent: seq<Send>) {
    && (forall i, j :: 0 <= i < j < |sent| && sent[i].port == sent[j].port ==> j == i + 1 && Refreshed(sent, j))
    && (forall i :: 0 <= i < |sent| - 1 ==> !Decisive(sent, i))
  }

  lemma OrderlyIsNeedful(sent: seq<Send>)
    requires OrderlySends(sent) && Distinct(PortsTried(sent))
    ensures NoNeedlessSend(sent)
  {
    forall i, j | 0 <= i < j < |sent| && sent[i].port == sent[j].port
      ensures j == i + 1 && Refreshed(sent, j)
    {
      TwiceIsRefreshed(sent, i, j);
    }
  }

  /** The ports in order, none skipped, and all of them unless a decisive answer came. */
  ghost predicate Exhausts(ports: seq<int>, sent: seq<Send>) {
    && PortsTried(sent) <= ports
    && (PortsTried(sent) == ports || (sent != [] && Decisive(sent, |sent| - 1)))
  }

  lemma MeetsIsFrugal(api: Api, ports: seq<int>, r: Stretch)
    requires Distinct(ports) && ProbeMeets(api, ports, r)
    ensures NoNeedlessSend(r.sent) && Exhausts(ports, r.sent)
  {
    assert Distinct(PortsTried(r.sent));
    OrderlyIsNeedful(r.sent);
  }

  /** At most two sends to a port, the second only after a 401 and with another token; the ports
      taken in order; nothing sent after a decisive answer, and every port tried without one. */
  lemma RequestSends(w: World, api: Api, ports: seq<int>)
    requires Distinct(ports)
    ensures var sent := Probe(Turns(w), api, 0, ports).sent; NoNeedlessSend(sent) && Exhausts(ports, sent)
  {
    RequestMeets(w, api, ports);
    MeetsIsFrugal(api, ports, Probe(Turns(w), api, 0, ports));
  }

  /** The outcome its sends call for: the decisive answer that ended them; without one the first
      "not found" of a dashboard, and failing that the last failure. */
  ghost predicate EndsRight(r: Stretch, outcome: Outcome) {
    && r.sent != []
    && var last := |r.sent| - 1;
       var answer := r.sent[last].answer;
       if Decisive(r.sent, last) then
         && r.api.port == Some(r.sent[last].port)
         && outcome == if answer.Ok? then Answered(answer.body) else Raised(answer)
       else if exists i :: 0 <= i < |r.sent| && DashboardMissing(r.sent, i) then
         exists i :: 0 <= i < |r.sent| && IsFirstMissing(r.sent, i) && outcome == Raised(r.sent[i].answer)
       else outcome == Raised(answer)
  }

  lemma VerdictEndsRight(r: Stretch)
    requires r.sent != [] && (r.settled <==> Decisive(r.sent, |r.sent| - 1))
    requires r.settled ==> r.api.port == Some(r.sent[|r.sent| - 1].port)
    ensures EndsRight(r, Verdict(r.sent, r.settled))
  {
    FirstMissingIsFirst(r.sent);
  }

  /** How a request ends. */
  lemma RequestEnds(w: World, api: Api, ports: seq<int>)
    requires Distinct(ports) && ports != []
    ensures var r := Probe(Turns(w), api, 0, ports);
            r.sent != [] && EndsRight(r, Verdict(r.sent, r.settled))
  {
    RequestMeets(w, api, ports);
    VerdictEndsRight(Probe(Turns(w), api, 0, ports));
  }

  /** The known-good port is the one that gave a decisive answer; without one it is kept, unless
      its own first try went unanswered or met a 404. */
  lemma RequestPins(w: World, api: Api, ports: seq<int>)
    requires Distinct(ports)
    ensures var r := Probe(Turns(w), api, 0, ports);
            r.api.port == PortAfter(api.port, r.sent)
  {
    RequestMeets(w, api, ports);
  }

  lemma {:induction false} TriedLast(sent: seq<Send>)
    requires sent != [] && OrderlySends(sent)
    ensures PortsTried(sent) != [] && PortsTried(sent)[|PortsTried(sent)| - 1] == sent[|sent| - 1].port
  {
    if !FirstTry(sent, |sent| - 1) {
      OrderlyPrefix(sent);
      TriedLast(sent[..|sent| - 1]);
    }
  }

  ghost predicate CameFrom(w: World, send: Send) {
    exists clock: nat :: w.answers(clock, send.port, send.token) == send.answer
  }

  ghost predicate AllCame(w: World, sent: seq<Send>) {
    forall i :: 0 <= i < |sent| ==> CameFrom(w, sent[i])
  }

  lemma TurnCame(w: World, api: Api, clock: nat, port: int)
    ensures AllCame(w, Visit(w, api, clock, port).sent)
  {
  }

  lemma CameConcat(w: World, a: seq<Send>, b: seq<Send>)
    requires AllCame(w, a) && AllCame(w, b)
    ensures AllCame(w, a + b)
  {
  }

  // ------------------------------------------------------------------ tokens

  /** The token to be found at a moment when none is cached. */
  function FoundToken(w: World, clock: nat, port: int): string {
    if w.env != "" then w.env else w.pages(clock, port)
  }

  function KnownToken(w: World, api: Api, clock: nat, port: int): string {
    if port in api.tokens && api.tokens[port] != "" then api.tokens[port] else FoundToken(w, clock, port)
  }

  predicate Unauthorized(send: Send) {
    send.answer.Http? && send.answer.code == 401
  }

  /** Send `i` of a stretch that starts at `clock`: a port's first carries the token known for it, a
      second one the token found after the refusal, and it gets the answer of that moment. A first
      one is followed by a second exactly if it was refused and another token is then found. */
  ghost predicate SendIsRight(w: World, api: Api, clock: nat, sent: seq<Send>, i: nat)
    requires i < |sent|
  {
    var port, token := sent[i].port, sent[i].token;
    && token == (if FirstTry(sent, i) then KnownToken(w, api, clock + i, port) else FoundToken(w, clock + i, port))
    && sent[i].answer == w.answers(clock + i, port, token)
    && (FirstTry(sent, i) ==>
          var newer := FoundToken(w, clock + i + 1, port);
          (i + 1 < |sent| && sent[i + 1].port == port <==> Unauthorized(sent[i]) && newer != "" && newer != token))
  }

  ghost predicate TokensRight(w: World, api: Api, clock: nat, sent: seq<Send>) {
    forall i :: 0 <= i < |sent| ==> SendIsRight(w, api, clock, sent, i)
  }

  /** One port's turn: its tokens, and the one cached after it. A refused token is never kept. */
  lemma VisitTokens(w: World, api: Api, clock: nat, port: int)
    ensures var v := Visit(w, api, clock, port);
            && v.sent != [] && TokensRight(w, api, clock, v.sent)
            && var token := if Unauthorized(v.sent[0]) then FoundToken(w, clock + 1, port) else v.sent[0].token;
               if token != "" then port in v.api.tokens && v.api.tokens[port] == token
               else port in v.api.tokens ==> !Unauthorized(v.sent[0]) && port in api.tokens && api.tokens[port] == ""
  {
    var v := Visit(w, api, clock, port);
    VisitIsTurn(w, api, clock, port);
    assert SendIsRight(w, api, clock, v.sent, 0);
    if |v.sent| == 2 {
      assert SendIsRight(w, api, clock, v.sent, 1);
    }
  }

  ghost predicate SameTokens(a: Api, b: Api, port: int) {
    (port in a.tokens <==> port in b.tokens) && (port in a.tokens ==> a.tokens[port] == b.tokens[port])
  }

  lemma TokensConcat(w: World, api: Api, after: Api, clock: nat, turn: seq<Send>, sent: seq<Send>)
    requires turn != [] && TokensRight(w, api, clock, turn) && TokensRight(w, after, clock + |turn|, sent)
    requires sent == [] || turn[|turn| - 1].port != sent[0].port
    requires forall i :: 0 <= i < |sent| ==> SameTokens(api, after, sent[i].port)
    ensures TokensRight(w, api, clock, turn + sent)
  {
    forall i | 0 <= i < |turn + sent| ensures SendIsRight(w, api, clock, turn + sent, i) {
      if i < |turn| {
        Ahead(turn, sent, i);
        assert SendIsRight(w, api, clock, turn, i);
      } else {
        var j := i - |turn|;
        Behind(turn, sent, j);
        assert SendIsRight(w, after, clock + |turn|, sent, j) && SameTokens(api, after, sent[j].port);
      }
    }
  }

  ghost predicate RightTurn(w: World, visit: (Api, nat, int) -> Stretch, api: Api, clock: nat, port: int) {
    var v := visit(api, clock, port);
    IsTurn(v, api, port) && TokensRight(w, api, clock, v.sent)
  }

  ghost predicate OrderlyProbe(visit: (Api, nat, int) -> Stretch, api: Api, clock: nat, ports: seq<int>) {
    Orderly(ports, Probe(visit, api, clock, ports))
  }

  lemma {:induction false} ProbeTokens(w: World, visit: (Api, nat, int) -> Stretch, api: Api, clock: nat, ports: seq<int>)
    requires Distinct(ports)
    requires forall a: Api, c: nat, p: int :: RightTurn(w, visit, a, c, p)
    requires forall a: Api, c: nat, p: seq<int> | Distinct(p) :: OrderlyProbe(visit, a, c, p)
    ensures TokensRight(w, api, clock, Probe(visit, api, clock, ports).sent)
    decreases |ports|
  {
    if ports != [] {
      var v := visit(api, clock, ports[0]);
      assert RightTurn(w, visit, api, clock, ports[0]);
      if !v.settled {
        ProbeTokens(w, visit, v.api, clock + |v.sent|, ports[1..]);
        assert OrderlyProbe(visit, v.api, clock + |v.sent|, ports[1..]);
        JoinTokens(w, v, api, clock, ports, Probe(visit, v.api, clock + |v.sent|, ports[1..]));
      }
    }
  }

  lemma JoinTokens(w: World, v: Stretch, api: Api, clock: nat, ports: seq<int>, rest: Stretch)
    requires Distinct(ports) && ports != [] && IsTurn(v, api, ports[0]) && !v.settled && Orderly(ports[1..], rest)
    requires TokensRight(w, api, clock, v.sent) && TokensRight(w, v.api, clock + |v.sent|, rest.sent)
    ensures TokensRight(w, api, clock, v.sent + rest.sent)
  {
    JoinApart(v, api, ports, rest);
    forall i | 0 <= i < |rest.sent| ensures SameTokens(api, v.api, rest.sent[i].port) {
      assert rest.sent[i].port in ports[1..] && rest.sent[i].port != ports[0];
    }
    TokensConcat(w, api, v.api, clock, v.sent, rest.sent);
  }

  /** In a whole request: which token every send carries, and which refused sends are repeated. */
  lemma RequestTokens(w: World, api: Api, ports: seq<int>)
    requires Distinct(ports)
    ensures TokensRight(w, api, 0, Probe(Turns(w), api, 0, ports).sent)
  {
    forall a: Api, c: nat, p: int ensures RightTurn(w, Turns(w), a, c, p) {
      VisitIsTurn(w, a, c, p);
      VisitTokens(w, a, c, p);
    }
    forall a: Api, c: nat, p: seq<int> | Distinct(p) ensures OrderlyProbe(Turns(w), a, c, p) {
      ProbesMeet(w, a, c, p);
    }
    ProbeTokens(w, Turns(w), api, 0, ports);
  }

  /** Every recorded answer is one the world gave. */
  lemma {:induction false} AnswersCome(w: World, api: Api, clock: nat, ports: seq<int>)
    ensures AllCame(w, Probe(Turns(w), api, clock, ports).sent)
    decreases |ports|
  {
    if ports != [] {
      var v := Turns(w)(api, clock, ports[0]);
      TurnCame(w, api, clock, ports[0]);
      if !v.settled {
        var rest := Probe(Turns(w), v.api, clock + |v.sent|, ports[1..]);
        AnswersCome(w, v.api, clock + |v.sent|, ports[1..]);
        CameConcat(w, v.sent, rest.sent);
      }
    }
  }

  /** The api_server's port is probed last, unless the operator or the cache names it. */
  lemma ApiServerLast(api: Api, owners: seq<Dashboard>, own: string, override: Option<int>)
    requires API_SERVER_PORT !in Candidates(api, owners, own, override)
    ensures var ports := PortsToProbe(api, owners, own, override);
            Distinct(ports) && ports != [] && ports[|ports| - 1] == API_SERVER_PORT
  {
    var candidates := Candidates(api, owners, own, override);
    FirstMentionsAreDistinct(candidates);
    var all := FirstMentions(candidates) + [API_SERVER_PORT];
    assert all[..|all| - 1] == FirstMentions(candidates);
    FirstMentionsAreDistinct(all);
  }

  ghost predicate OnlyApiServer404(sent: seq<Send>) {
    forall i :: 0 <= i < |sent| ==>
                  if sent[i].port == API_SERVER_PORT then sent[i].answer.Http? && sent[i].answer.code == 404
                  else sent[i].answer.Lost?
  }

  lemma ProbeOfDeadPorts(w: World, api: Api, ports: seq<int>)
    requires Distinct(ports) && ports != [] && ports[|ports| - 1] == API_SERVER_PORT
    requires OnlyApiServer404(Probe(Turns(w), api, 0, ports).sent)
    ensures var r := Probe(Turns(w), api, 0, ports);
            !r.settled && Verdict(r.sent, false).Raised? && Reading(Verdict(r.sent, false).error) == Missing
  {
    RequestMeets(w, api, ports);
    var r := Probe(Turns(w), api, 0, ports);
    TriedLast(r.sent);
    FirstMissingIsFirst(r.sent);
  }

  /** Nothing answers but the api_server's port, which says 404 to everything. */
  ghost predicate NoDashboard(w: World) {
    forall clock: nat, port: int, token: string ::
      var answer := w.answers(clock, port, token);
      if port == API_SERVER_PORT then answer.Http? && answer.code == 404 else answer.Lost?
  }

  lemma NoDashboardAnswers(w: World, sent: seq<Send>)
    requires NoDashboard(w) && AllCame(w, sent)
    ensures OnlyApiServer404(sent)
  {
    forall i | 0 <= i < |sent|
      ensures if sent[i].port == API_SERVER_PORT then sent[i].answer.Http? && sent[i].answer.code == 404
              else sent[i].answer.Lost?
    {
      assert CameFrom(w, sent[i]);
    }
  }

  /** "Not found" does not need a dashboard: when every port before the api_server's is dead and
      that one, which serves none of these routes, says 404, the session is reported missing. */
  lemma ApiServer404ReadsAsMissing(w: World, api: Api, ports: seq<int>)
    requires Distinct(ports) && ports != [] && ports[|ports| - 1] == API_SERVER_PORT && NoDashboard(w)
    ensures var r := Probe(Turns(w), api, 0, ports); !r.settled && Discovered(r) == Missing
  {
    AnswersCome(w, api, 0, ports);
    NoDashboardAnswers(w, Probe(Turns(w), api, 0, ports).sent);
    ProbeOfDeadPorts(w, api, ports);
  }

  ghost predicate MetNotFound(sent: seq<Send>) {
    && sent != [] && !Decisive(sent, |sent| - 1)
    && ((exists i :: 0 <= i < |sent| && DashboardMissing(sent, i)) || Reading(sent[|sent| - 1].answer) == Missing)
  }

  lemma DiscoveredMissing(r: Stretch)
    requires r.sent != [] && (r.settled <==> Decisive(r.sent, |r.sent| - 1))
    ensures Discovered(r) == Missing <==> MetNotFound(r.sent)
  {
    FirstMissingIsFirst(r.sent);
  }

  /** When a discovery reads as "not found": it met no decisive answer, and some dashboard said 404
      on its first try, or the very last send, whoever answered it, came back with 404. */
  lemma DiscoversMissingIff(w: World, api: Api, ports: seq<int>)
    requires Distinct(ports) && ports != []
    ensures var r := Probe(Turns(w), api, 0, ports);
            r.sent != [] && (Discovered(r) == Missing <==> MetNotFound(r.sent))
  {
    RequestMeets(w, api, ports);
    DiscoveredMissing(Probe(Turns(w), api, 0, ports));
  }
}
