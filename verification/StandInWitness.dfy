/** A run that fails without showing an error: an information a sensor reports carries the fingerprint that the failure
    of another sensor is given. */
module StandInWitness {
  import opened Types
  import opened Highlights
  import opened Summarize
  import opened Synthesize
  import opened Ingest
  import opened IngestGuarantees
  import opened Evidence
  import opened DiscoveryWitness
  import Completion
  import OrderedSet

  const HARMLESS := Finding(Info, None, "c", "m", None, None, None, Some("cockpit.path_traversal:b:b"), None)

  const CONFIG := CockpitConfig(
    DEFAULT_POLICY, map["a" := DEFAULT_SENSOR_POLICY, "b" := DEFAULT_SENSOR_POLICY.(blocking := true)])

  const NONE_FOUND := DiscoveredSensors([], false, 0, [])

  /** "a" has a receipt, and the path of the blocking sensor "b" is rejected. */
  const PORTS := Ports(
    Ok(NONE_FOUND), Ok(Some(CONFIG)), id => id,
    id => Ok(if id == "a" then ReportBytes([]) else ReportUnsafePath), id => Ok(CommentMissing), id => Ok(PlanMissing),
    bytes => Ok(Valid), bytes => Ok(ReceiptOf(HARMLESS)), bytes => None, text => text,
    (report, cfg) => "", report => Ok(""), text => Ok(()), text => Ok(()))

  lemma ItRuns(req: Request)
    ensures Run(PORTS, req).Ok?
  {
    hide Run, Assembled, Expected;
    Completion.CompletesIff(PORTS, req);
  }

  lemma BothExpected()
    ensures Expected(CONFIG, NONE_FOUND) == ["a", "b"]
  {
    hide OrderedSet.Ascending;
    assert CONFIG.sensors.Keys == {"a", "b"};
    OrderedSet.AscendingUnique(Expected(CONFIG, NONE_FOUND), ["a", "b"]);
  }

  lemma Raises(s: Setting)
    requires s.ports == PORTS && s.cfg == CONFIG
    ensures Process(s, "a").Ok? && Process(s, "a").value.highlights == [Highlight("a", HARMLESS)]
    ensures Process(s, "b").Ok? && Process(s, "b").value.highlights ==
            [SynthesizePathTraversalHighlight("b", "b", Some("report.json"))]
    ensures FailsRun(s, "b") && RejectedError(SynthesizePathTraversalHighlight("b", "b", Some("report.json")))
  {
    hide CandidatesOf, SummaryOf, TraversalMessage;
    OneFinding("a", HARMLESS);
    assert "cockpit.path_traversal:" + "b" + ":" + "b" == "cockpit.path_traversal:b:b";
  }

  predicate RejectedError(h: Highlight) {
    h.finding.severity == Error && h.finding.fingerprint == HARMLESS.fingerprint
  }

  /** The run exits with 2 because of "b", and all it shows, with room for more, is the information of "a". */
  lemma FailureWithoutError(req: Request)
    ensures Run(PORTS, req).Ok?
    ensures Run(PORTS, req).value.exitCode == 2
    ensures Run(PORTS, req).value.report.highlights == [Highlight("a", HARMLESS)]
  {
    hide Run, Process, Select, AllRaised, Expected, FailsRun, WarnsRun, PORTS, CONFIG;
    ItRuns(req);
    PortsAre();
    BothExpected();
    var res := Run(PORTS, req).value;
    var s := AllRaisedAre(PORTS, req, res, NONE_FOUND);
    Raises(s);
    var error := SynthesizePathTraversalHighlight("b", "b", Some("report.json"));
    RaisedInTurn(s, NONE_FOUND, "a", "b", Highlight("a", HARMLESS), error);
    ShowsFirst(PORTS.hash, BlockingMap(CONFIG, ["a", "b"]), Highlight("a", HARMLESS), error);
    VerdictFromInputs(PORTS, req, res, NONE_FOUND);
    assert "b" in Expected(CONFIG, NONE_FOUND);
  }

  lemma PortsAre()
    ensures PORTS.discover == Ok(NONE_FOUND) && PORTS.loadConfig == Ok(Some(CONFIG))
    ensures CONFIG.policy.maxHighlights == DEFAULT_POLICY.maxHighlights
  {
  }
}
