/** Governed AI actions and their human approvals (internal/server/api/ai_actions.go, the
    statements of internal/server/db/ai_approvals.go, and the unique index of
    migrations/064_ai_action_approvals.sql).

    An approval handler claims, executes and, on failure, reverts; each of these is one
    step, and the steps of different handlers interleave freely. */
module AiActions {
  import opened Prelude
  import opened AiPolicy

  datatype Candidate = Candidate(vulnID: string, hostID: string, pkg: string, severity: string, cvss: real,
                                 knownExploited: bool, environment: string, criticality: string)
  datatype Payload = Payload(vulnID: string, hostID: string, pkg: string, status: string)

  /** A payload, with the finding and the recommendation the engine ruled on. */
  datatype Proposal = Proposal(payload: Payload, finding: Candidate, action: string)

  datatype Status = Pending | Approved | Rejected
  datatype Row = Row(subject: string, proposal: Proposal, status: Status, decidedBy: string)

  /** A handler between its claim and its end. */
  datatype Handler = Claimed(id: string, proposal: Proposal, actor: string) | Failed(id: string)

  /** One attempt to carry out an action; `id` is the approval it was carried out for. */
  datatype Execution = Execution(id: Option<string>, proposal: Proposal, actor: string, ok: bool)

  datatype World = World(rows: map<string, Row>, triage: map<(string, string, string), string>,
                         handlers: map<nat, Handler>, log: seq<Execution>)

  datatype Step =
    | Govern(c: Candidate, action: string, confidence: real, config: Config, newID: string, dbOk: bool)
    | Claim(pid: nat, id: string, actor: string, dbOk: bool)
    | Execute(pid: nat, dbOk: bool)
    | Revert(pid: nat, dbOk: bool)
    | Vanish(pid: nat)
    | Reject(id: string, actor: string, dbOk: bool)

  function TriageStatusForAction(action: string): string
  {
    if action == "false_positive" then "false_positive" else if action == "accept_risk" then "accepted_risk" else ""
  }

  function RequestFor(c: Candidate, confidence: real): Request
  {
    Request(confidence, true, c.severity, c.cvss, c.knownExploited, c.environment, c.criticality)
  }

  function ProposalFor(c: Candidate, action: string): Proposal
  {
    Proposal(Payload(c.vulnID, c.hostID, c.pkg, TriageStatusForAction(action)), c, action)
  }

  function Subject(c: Candidate): string
  {
    c.vulnID + "|" + c.hostID + "|" + c.pkg
  }

  /** What executeAIAction accepts. */
  predicate Executable(p: Payload)
  {
    p.vulnID != "" && p.status in {"accepted_risk", "false_positive"}
  }

  function Carry(w: World, id: Option<string>, p: Proposal, actor: string, dbOk: bool): World
  {
    var ok := Executable(p.payload) && dbOk;
    var done := w.(log := w.log + [Execution(id, p, actor, ok)]);
    if ok then done.(triage := w.triage[(p.payload.vulnID, p.payload.hostID, p.payload.pkg) := p.payload.status]) else done
  }

  predicate HasPending(rows: map<string, Row>, subject: string)
  {
    exists id :: id in rows && rows[id].status.Pending? && rows[id].subject == subject
  }

  /** INSERT ... ON CONFLICT (action_type, subject) WHERE status='pending' DO UPDATE. */
  function Upsert(rows: map<string, Row>, newID: string, subject: string, p: Proposal): map<string, Row>
  {
    if HasPending(rows, subject) then
      map id | id in rows ::
        if rows[id].status.Pending? && rows[id].subject == subject then rows[id].(proposal := p) else rows[id]
    else rows[newID := Row(subject, p, Pending, "")]
  }

  predicate CanClaim(rows: map<string, Row>, id: string, dbOk: bool)
  {
    dbOk && id in rows && rows[id].status.Pending?
  }

  /** The revert is refused by the unique index if the subject has been queued again. */
  predicate CanRevert(rows: map<string, Row>, id: string, dbOk: bool)
  {
    dbOk && id in rows && rows[id].status.Approved? && !HasPending(rows, rows[id].subject)
  }

  predicate Enabled(w: World, s: Step)
  {
    match s
    case Govern(_, _, _, _, newID, _) => newID !in w.rows
    case Claim(pid, _, _, _) => pid !in w.handlers
    case Execute(pid, _) => pid in w.handlers && w.handlers[pid].Claimed?
    case Revert(pid, _) => pid in w.handlers && w.handlers[pid].Failed?
    case Vanish(pid) => pid in w.handlers
    case Reject(_, _, _) => true
  }

  function Next(w: World, s: Step): World
    requires Enabled(w, s)
  {
    match s
    case Govern(c, action, confidence, config, newID, dbOk) =>
      if TriageStatusForAction(action) == "" then w else
        (match Decide(config, RequestFor(c, confidence)).outcome
         case Apply => Carry(w, None, ProposalFor(c, action), "ai-analyzer", dbOk)
         case Queue => if dbOk then w.(rows := Upsert(w.rows, newID, Subject(c), ProposalFor(c, action))) else w
         case Nothing => w)
    case Claim(pid, id, actor, dbOk) =>
      if !CanClaim(w.rows, id, dbOk) then w else
        w.(rows := w.rows[id := w.rows[id].(status := Approved, decidedBy := actor)],
           handlers := w.handlers[pid := Claimed(id, w.rows[id].proposal, actor)])
    case Execute(pid, dbOk) =>
      var h := w.handlers[pid];
      var v := Carry(w, Some(h.id), h.proposal, h.actor, dbOk);
      v.(handlers := if Executable(h.proposal.payload) && dbOk then w.handlers - {pid} else w.handlers[pid := Failed(h.id)])
    case Revert(pid, dbOk) =>
      var id := w.handlers[pid].id;
      w.(handlers := w.handlers - {pid},
         rows := if CanRevert(w.rows, id, dbOk) then w.rows[id := w.rows[id].(status := Pending, decidedBy := "")] else w.rows)
    case Vanish(pid) => w.(handlers := w.handlers - {pid})
    case Reject(id, actor, dbOk) =>
      // The statement compares the row's id with its first argument, which is the actor.
      if !CanClaim(w.rows, actor, dbOk) then w else
        w.(rows := w.rows[actor := w.rows[actor].(status := Rejected, decidedBy := id)])
  }

  // ---------------------------------------------------------------------
  // What every interleaving keeps.

  ghost function Successes(log: seq<Execution>, id: string): nat
  {
    if log == [] then 0 else
      var e := log[|log| - 1];
      Successes(log[..|log| - 1], id) + if e.ok && e.id == Some(id) then 1 else 0
  }

  /** The approval is this handler's to carry out. */
  ghost predicate Holds(w: World, h: Handler)
  {
    h.id in w.rows && w.rows[h.id].status.Approved? && Successes(w.log, h.id) == 0 && (h.Claimed? ==> Governed(h.proposal))
  }

  /** No two handlers have claimed the same approval. */
  ghost predicate Exclusive(handlers: map<nat, Handler>)
  {
    forall p, q :: p in handlers && q in handlers && p != q ==> handlers[p].id != handlers[q].id
  }

  lemma StaysExclusive(handlers: map<nat, Handler>, pid: nat, h: Handler)
    requires Exclusive(handlers) && pid in handlers && h.id == handlers[pid].id
    ensures Exclusive(handlers - {pid}) && Exclusive(handlers[pid := h])
  {
  }

  ghost predicate HandlersHold(w: World)
  {
    && (forall pid :: pid in w.handlers ==> Holds(w, w.handlers[pid]))
    && Exclusive(w.handlers)
  }

  ghost predicate ExecutedOnce(w: World)
  {
    forall id :: Successes(w.log, id) <= 1 && (Successes(w.log, id) == 1 ==> id in w.rows && w.rows[id].status.Approved?)
  }

  ghost predicate OnePending(rows: map<string, Row>)
  {
    forall a, b :: a in rows && b in rows && a != b && rows[a].status.Pending? && rows[b].status.Pending? ==>
      rows[a].subject != rows[b].subject
  }

  ghost predicate AllGoverned(w: World)
  {
    && (forall id :: id in w.rows ==> Governed(w.rows[id].proposal))
    && (forall i :: 0 <= i < |w.log| ==> Governed(w.log[i].proposal) && (w.log[i].ok ==> Executable(w.log[i].proposal.payload)))
  }

  /** The finding is one a machine may silence, and the payload does to it what was
      recommended. */
  ghost predicate Governed(p: Proposal)
  {
    && !p.finding.knownExploited && p.finding.cvss < 9.0 && !Spells(p.finding.severity, "critical")
    && p.payload.vulnID == p.finding.vulnID && p.payload.hostID == p.finding.hostID && p.payload.pkg == p.finding.pkg
    && ((p.action == "false_positive" && p.payload.status == "false_positive") ||
        (p.action == "accept_risk" && p.payload.status == "accepted_risk"))
  }

  ghost predicate Inv(w: World)
  {
    HandlersHold(w) && ExecutedOnce(w) && OnePending(w.rows) && AllGoverned(w)
  }

  lemma LogAppend(log: seq<Execution>, e: Execution, id: string)
    ensures Successes(log + [e], id) == Successes(log, id) + if e.ok && e.id == Some(id) then 1 else 0
  {
    assert (log + [e])[..|log|] == log;
  }

  lemma UpsertKeepsOnePending(rows: map<string, Row>, newID: string, subject: string, p: Proposal)
    requires OnePending(rows) && newID !in rows
    ensures OnePending(Upsert(rows, newID, subject, p))
  {
  }

  /** Proposals reach the table or the executor only past the engine. */
  lemma ActedOnMeansGoverned(c: Candidate, action: string, confidence: real, config: Config)
    requires TriageStatusForAction(action) != "" && Decide(config, RequestFor(c, confidence)).outcome != Nothing
    ensures Governed(ProposalFor(c, action))
  {
    DecideMeans(config, RequestFor(c, confidence));
  }

  /** A pending row of this subject offers this payload. */
  ghost predicate Queued(rows: map<string, Row>, subject: string, payload: Payload)
  {
    exists id :: id in rows && rows[id].status.Pending? && rows[id].subject == subject && rows[id].proposal.payload == payload
  }

  lemma UpsertQueues(rows: map<string, Row>, newID: string, subject: string, p: Proposal)
    requires newID !in rows
    ensures Queued(Upsert(rows, newID, subject, p), subject, p.payload)
  {
    var id := newID;
    if HasPending(rows, subject) { id :| id in rows && rows[id].status.Pending? && rows[id].subject == subject; }
    var after := Upsert(rows, newID, subject, p);
    assert id in after && after[id].status.Pending? && after[id].subject == subject && after[id].proposal == p;
  }

  /** What one suggestion leads to, over the finding and the configuration alone. */
  lemma GovernMeans(w: World, c: Candidate, action: string, confidence: real, config: Config, newID: string, dbOk: bool)
    requires newID !in w.rows
    ensures var v := Next(w, Govern(c, action, confidence, config, newID, dbOk));
      var known := action == "false_positive" || action == "accept_risk";
      var status := if action == "false_positive" then "false_positive" else "accepted_risk";
      var tame := !c.knownExploited && c.cvss < 9.0 && !Spells(c.severity, "critical");
      var sure := config.minConfidence <= 0.0 || config.minConfidence <= confidence;
      var shielded := config.protectProduction && Spells(c.environment, "production") && Spells(c.criticality, "high");
      var apply := config.mode.Auto? || (config.mode.Assisted? && !shielded);
      var queue := config.mode.Assisted? && shielded;
      && v.handlers == w.handlers
      && v.triage == (if known && tame && sure && apply && c.vulnID != "" && dbOk
                      then w.triage[(c.vulnID, c.hostID, c.pkg) := status] else w.triage)
      && (known && tame && sure && queue && dbOk ==> Queued(v.rows, Subject(c), Payload(c.vulnID, c.hostID, c.pkg, status)))
      && (!(known && tame && sure && queue && dbOk) ==> v.rows == w.rows)
  {
    DecideMeans(config, RequestFor(c, confidence));
    UpsertQueues(w.rows, newID, Subject(c), ProposalFor(c, action));
  }

  lemma AppliedKeepsInv(w: World, p: Proposal, dbOk: bool)
    requires Inv(w) && Governed(p)
    ensures Inv(Carry(w, None, p, "ai-analyzer", dbOk))
  {
    var e := Execution(None, p, "ai-analyzer", Executable(p.payload) && dbOk);
    forall id ensures Successes(w.log + [e], id) == Successes(w.log, id) { LogAppend(w.log, e, id); }
  }

  lemma QueuedKeepsInv(w: World, newID: string, subject: string, p: Proposal)
    requires Inv(w) && Governed(p) && newID !in w.rows
    ensures Inv(w.(rows := Upsert(w.rows, newID, subject, p)))
  {
    UpsertKeepsOnePending(w.rows, newID, subject, p);
  }

  /** One execution moves the count of its own approval only, and only if it succeeds. */
  lemma ExecuteCounts(w: World, pid: nat, dbOk: bool, id: string)
    requires Enabled(w, Execute(pid, dbOk))
    ensures var h, v := w.handlers[pid], Next(w, Execute(pid, dbOk));
      Successes(v.log, id) == Successes(w.log, id) + if Executable(h.proposal.payload) && dbOk && id == h.id then 1 else 0
  {
    var h := w.handlers[pid];
    LogAppend(w.log, Execution(Some(h.id), h.proposal, h.actor, Executable(h.proposal.payload) && dbOk), id);
  }

  lemma ExecuteKeepsHandlers(w: World, pid: nat, dbOk: bool)
    requires HandlersHold(w) && Enabled(w, Execute(pid, dbOk))
    ensures HandlersHold(Next(w, Execute(pid, dbOk)))
  {
    var v := Next(w, Execute(pid, dbOk));
    StaysExclusive(w.handlers, pid, Failed(w.handlers[pid].id));
    forall p | p in v.handlers ensures Holds(v, v.handlers[p]) { ExecuteKeepsHandler(w, pid, dbOk, p); }
  }

  lemma ExecuteKeepsHandler(w: World, pid: nat, dbOk: bool, p: nat)
    requires HandlersHold(w) && Enabled(w, Execute(pid, dbOk)) && p in Next(w, Execute(pid, dbOk)).handlers
    ensures Holds(Next(w, Execute(pid, dbOk)), Next(w, Execute(pid, dbOk)).handlers[p])
  {
    ExecuteCounts(w, pid, dbOk, w.handlers[p].id);
    assert Holds(w, w.handlers[p]);
  }

  lemma ExecuteKeepsCounts(w: World, pid: nat, dbOk: bool)
    requires HandlersHold(w) && ExecutedOnce(w) && Enabled(w, Execute(pid, dbOk))
    ensures ExecutedOnce(Next(w, Execute(pid, dbOk)))
  {
    var v := Next(w, Execute(pid, dbOk));
    forall id ensures Successes(v.log, id) <= 1 && (Successes(v.log, id) == 1 ==> id in v.rows && v.rows[id].status.Approved?) {
      ExecuteCounts(w, pid, dbOk, id);
    }
  }

  lemma ExecuteKeepsInv(w: World, pid: nat, dbOk: bool)
    requires Inv(w) && Enabled(w, Execute(pid, dbOk))
    ensures Inv(Next(w, Execute(pid, dbOk)))
  {
    ExecuteKeepsHandlers(w, pid, dbOk);
    ExecuteKeepsCounts(w, pid, dbOk);
  }

  lemma ClaimKeepsHandlers(w: World, pid: nat, id: string, actor: string, dbOk: bool)
    requires Inv(w) && Enabled(w, Claim(pid, id, actor, dbOk))
    ensures HandlersHold(Next(w, Claim(pid, id, actor, dbOk)))
  {
    assert Successes(w.log, id) <= 1;
  }

  lemma ClaimKeepsInv(w: World, pid: nat, id: string, actor: string, dbOk: bool)
    requires Inv(w) && Enabled(w, Claim(pid, id, actor, dbOk))
    ensures Inv(Next(w, Claim(pid, id, actor, dbOk)))
  {
    ClaimKeepsHandlers(w, pid, id, actor, dbOk);
    var v := Next(w, Claim(pid, id, actor, dbOk));
    assert OnePending(v.rows);
    assert ExecutedOnce(v);
  }

  lemma RevertKeepsInv(w: World, pid: nat, dbOk: bool)
    requires Inv(w) && Enabled(w, Revert(pid, dbOk))
    ensures Inv(Next(w, Revert(pid, dbOk)))
  {
  }

  lemma RejectKeepsInv(w: World, id: string, actor: string, dbOk: bool)
    requires Inv(w)
    ensures Inv(Next(w, Reject(id, actor, dbOk)))
  {
    assert Successes(w.log, actor) <= 1;
  }

  lemma StepKeepsInv(w: World, s: Step)
    requires Inv(w) && Enabled(w, s)
    ensures Inv(Next(w, s))
  {
    match s {
      case Govern(c, action, confidence, config, newID, dbOk) =>
        if TriageStatusForAction(action) != "" && Decide(config, RequestFor(c, confidence)).outcome != Nothing {
          ActedOnMeansGoverned(c, action, confidence, config);
          AppliedKeepsInv(w, ProposalFor(c, action), dbOk);
          QueuedKeepsInv(w, newID, Subject(c), ProposalFor(c, action));
        }
      case Claim(pid, id, actor, dbOk) => ClaimKeepsInv(w, pid, id, actor, dbOk);
      case Execute(pid, dbOk) => ExecuteKeepsInv(w, pid, dbOk);
      case Revert(pid, dbOk) => RevertKeepsInv(w, pid, dbOk);
      case Vanish(_) =>
      case Reject(id, actor, dbOk) => RejectKeepsInv(w, id, actor, dbOk);
    }
  }

  ghost predicate Possible(w: World, steps: seq<Step>)
    decreases |steps|
  {
    steps == [] || (Enabled(w, steps[0]) && Possible(Next(w, steps[0]), steps[1..]))
  }

  ghost function Run(w: World, steps: seq<Step>): World
    requires Possible(w, steps)
    decreases |steps|
  {
    if steps == [] then w else Run(Next(w, steps[0]), steps[1..])
  }

  /** In every interleaving each approval is carried out successfully at most once, a
      rejected or pending one never, and nothing is carried out, automatically or with
      approval, on a finding that was known-exploited, scored 9 or more, or rated critical
      when ruled on. */
  lemma {:induction false} EveryRunIsSafe(w: World, steps: seq<Step>)
    requires Inv(w) && Possible(w, steps)
    ensures Inv(Run(w, steps))
    ensures var v := Run(w, steps);
      && (forall id :: Successes(v.log, id) <= 1)
      && (forall id :: id in v.rows && !v.rows[id].status.Approved? ==> Successes(v.log, id) == 0)
      && (forall i :: 0 <= i < |v.log| ==>
            var c := v.log[i].proposal.finding; !c.knownExploited && c.cvss < 9.0 && !Spells(c.severity, "critical"))
    decreases |steps|
  {
    if steps != [] {
      StepKeepsInv(w, steps[0]);
      EveryRunIsSafe(Next(w, steps[0]), steps[1..]);
    }
  }

  ghost predicate Same(a: map<(string, string, string), string>, b: map<(string, string, string), string>, k: (string, string, string))
  {
    (k in a <==> k in b) && (k in a ==> a[k] == b[k])
  }

  /** The execution gave the finding `k` this status. */
  ghost predicate Gave(e: Execution, k: (string, string, string), status: string)
  {
    e.ok && (e.proposal.finding.vulnID, e.proposal.finding.hostID, e.proposal.finding.pkg) == k && e.proposal.payload.status == status
  }

  lemma CarryGives(w: World, id: Option<string>, p: Proposal, actor: string, dbOk: bool, k: (string, string, string))
    requires Governed(p)
    ensures var v := Carry(w, id, p, actor, dbOk);
      && |v.log| == |w.log| + 1 && w.log <= v.log
      && (Same(w.triage, v.triage, k) || (k in v.triage && Gave(v.log[|w.log|], k, v.triage[k])))
  {
  }

  lemma TriageStep(w: World, s: Step, k: (string, string, string))
    requires Inv(w) && Enabled(w, s)
    ensures var v := Next(w, s);
      && w.log <= v.log
      && (Same(w.triage, v.triage, k) ||
          (|v.log| == |w.log| + 1 && k in v.triage && Gave(v.log[|w.log|], k, v.triage[k])))
  {
    match s {
      case Govern(c, action, confidence, config, newID, dbOk) =>
        if TriageStatusForAction(action) != "" && Decide(config, RequestFor(c, confidence)).outcome == Apply {
          ActedOnMeansGoverned(c, action, confidence, config);
          CarryGives(w, None, ProposalFor(c, action), "ai-analyzer", dbOk, k);
        }
      case Execute(pid, dbOk) =>
        var h := w.handlers[pid];
        assert Holds(w, h);
        CarryGives(w, Some(h.id), h.proposal, h.actor, dbOk, k);
      case _ =>
    }
  }

  /** Over any run a finding's triage changes only by a successful execution on that very
      finding, of a recommendation the engine had let pass. */
  lemma {:induction false} FindingsChangeOnlyGoverned(w: World, steps: seq<Step>, k: (string, string, string))
    requires Inv(w) && Possible(w, steps)
    ensures var v := Run(w, steps);
      && w.log <= v.log
      && (Same(w.triage, v.triage, k) ||
          (k in v.triage && exists i :: |w.log| <= i < |v.log| && Gave(v.log[i], k, v.triage[k]) && Governed(v.log[i].proposal)))
    decreases |steps|
  {
    if steps != [] {
      var u := Next(w, steps[0]);
      StepKeepsInv(w, steps[0]);
      TriageStep(w, steps[0], k);
      FindingsChangeOnlyGoverned(u, steps[1..], k);
      EveryRunIsSafe(u, steps[1..]);
      var v := Run(w, steps);
      if Same(u.triage, v.triage, k) && !Same(w.triage, u.triage, k) {
        assert v.log[|w.log|] == u.log[|w.log|];
        assert Gave(v.log[|w.log|], k, v.triage[k]) && Governed(v.log[|w.log|].proposal);
      }
    }
  }

  /** The start: no handlers, nothing done, nothing queued. */
  lemma EmptyIsSafe(triage: map<(string, string, string), string>)
    ensures Inv(World(map[], triage, map[], []))
  {
  }

  // ---------------------------------------------------------------------
  // What can and cannot change afterwards.

  ghost predicate Settled(w: World, id: string)
  {
    id in w.rows && !w.rows[id].status.Pending? && forall pid :: pid in w.handlers ==> w.handlers[pid].id != id
  }

  /** A row that is rejected, or approved with no handler left, never changes again and is
      never carried out again; so an approval whose revert failed stays approved without
      ever having been carried out. */
  lemma {:induction false} SettledForever(w: World, steps: seq<Step>, id: string)
    requires Inv(w) && Possible(w, steps) && Settled(w, id)
    ensures var v := Run(w, steps);
      Settled(v, id) && v.rows[id] == w.rows[id] && Successes(v.log, id) == Successes(w.log, id)
    decreases |steps|
  {
    if steps != [] {
      StepKeepsInv(w, steps[0]);
      SettledStep(w, steps[0], id);
      SettledForever(Next(w, steps[0]), steps[1..], id);
    }
  }

  lemma SettledUpsert(rows: map<string, Row>, newID: string, subject: string, p: Proposal, id: string)
    requires id in rows && newID !in rows && !rows[id].status.Pending?
    ensures id in Upsert(rows, newID, subject, p) && Upsert(rows, newID, subject, p)[id] == rows[id]
  {
  }

  lemma SettledGovern(w: World, s: Step, id: string)
    requires Enabled(w, s) && s.Govern? && Settled(w, id)
    ensures var v := Next(w, s);
      v.handlers == w.handlers && id in v.rows && v.rows[id] == w.rows[id] && Successes(v.log, id) == Successes(w.log, id)
  {
    var p := ProposalFor(s.c, s.action);
    match Decide(s.config, RequestFor(s.c, s.confidence)).outcome {
      case Apply => LogAppend(w.log, Execution(None, p, "ai-analyzer", Executable(p.payload) && s.dbOk), id);
      case Queue => SettledUpsert(w.rows, s.newID, Subject(s.c), p, id);
      case Nothing =>
    }
  }

  lemma SettledExecute(w: World, pid: nat, dbOk: bool, id: string)
    requires Enabled(w, Execute(pid, dbOk)) && Settled(w, id)
    ensures var v := Next(w, Execute(pid, dbOk));
      Settled(v, id) && v.rows == w.rows && Successes(v.log, id) == Successes(w.log, id)
  {
    var h, v := w.handlers[pid], Next(w, Execute(pid, dbOk));
    ExecuteCounts(w, pid, dbOk, id);
    assert h.id != id && v.rows == w.rows;
    forall p | p in v.handlers ensures v.handlers[p].id != id { assert v.handlers[p].id == w.handlers[p].id; }
  }

  lemma SettledOtherwise(w: World, s: Step, id: string)
    requires Enabled(w, s) && !s.Govern? && !s.Execute? && Settled(w, id)
    ensures var v := Next(w, s);
      Settled(v, id) && v.rows[id] == w.rows[id] && v.log == w.log
  {
  }

  lemma SettledStep(w: World, s: Step, id: string)
    requires Enabled(w, s) && Settled(w, id)
    ensures var v := Next(w, s);
      Settled(v, id) && v.rows[id] == w.rows[id] && Successes(v.log, id) == Successes(w.log, id)
  {
    match s {
      case Govern(_, _, _, _, _, _) => SettledGovern(w, s, id);
      case Execute(pid, dbOk) => SettledExecute(w, pid, dbOk, id);
      case _ => SettledOtherwise(w, s, id);
    }
  }

  /** Approved for good, and never carried out. */
  ghost predicate Stranded(w: World, id: string)
  {
    Settled(w, id) && w.rows[id].status.Approved? && Successes(w.log, id) == 0
  }

  /** A revert strands its approval if and only if the statement fails or the subject has
      been queued again meanwhile; otherwise the approval is pending again. */
  lemma RevertStrandsIff(w: World, pid: nat, dbOk: bool)
    requires Inv(w) && Enabled(w, Revert(pid, dbOk))
    ensures var id, v := w.handlers[pid].id, Next(w, Revert(pid, dbOk));
      && (Stranded(v, id) <==> !dbOk || HasPending(w.rows, w.rows[id].subject))
      && (!Stranded(v, id) ==> v.rows[id].status.Pending?)
  {
  }

  /** A handler that vanishes before its action succeeded strands its approval always. */
  lemma VanishStrands(w: World, pid: nat)
    requires Inv(w) && Enabled(w, Vanish(pid))
    ensures Stranded(Next(w, Vanish(pid)), w.handlers[pid].id)
  {
  }

  lemma RunCons(w: World, s: Step, rest: seq<Step>)
    requires Enabled(w, s) && Possible(Next(w, s), rest)
    ensures Possible(w, [s] + rest) && Run(w, [s] + rest) == Run(Next(w, s), rest)
  {
    assert ([s] + rest)[1..] == rest;
  }

  lemma RunOne(w: World, s: Step)
    requires Enabled(w, s)
    ensures Possible(w, [s]) && Run(w, [s]) == Next(w, s)
  {
    assert [s][1..] == [];
  }

  lemma RunFive(start: World, s1: Step, w1: World, s2: Step, w2: World, s3: Step, w3: World, s4: Step, w4: World, s5: Step)
    requires Enabled(start, s1) && w1 == Next(start, s1)
    requires Enabled(w1, s2) && w2 == Next(w1, s2)
    requires Enabled(w2, s3) && w3 == Next(w2, s3)
    requires Enabled(w3, s4) && w4 == Next(w3, s4)
    requires Enabled(w4, s5)
    ensures Possible(start, [s1, s2, s3, s4, s5]) && Run(start, [s1, s2, s3, s4, s5]) == Next(w4, s5)
  {
    var r5 := [s5];
    var r4 := [s4] + r5;
    var r3 := [s3] + r4;
    var r2 := [s2] + r3;
    RunOne(w4, s5);
    RunCons(w3, s4, r5);
    RunCons(w2, s3, r4);
    RunCons(w1, s2, r3);
    RunCons(start, s1, r2);
    assert [s1, s2, s3, s4, s5] == [s1] + r2;
  }

  lemma QueueStep(w: World, c: Candidate, action: string, confidence: real, config: Config, newID: string)
    requires TriageStatusForAction(action) != "" && Decide(config, RequestFor(c, confidence)).outcome == Queue
    requires newID !in w.rows && !HasPending(w.rows, Subject(c))
    ensures Next(w, Govern(c, action, confidence, config, newID, true)) ==
      w.(rows := w.rows[newID := Row(Subject(c), ProposalFor(c, action), Pending, "")])
  {
  }

  lemma FailedExecution(w: World, pid: nat)
    requires Enabled(w, Execute(pid, false))
    ensures var h, v := w.handlers[pid], Next(w, Execute(pid, false));
      && v.rows == w.rows && v.handlers == w.handlers[pid := Failed(h.id)]
      && forall id :: Successes(v.log, id) == Successes(w.log, id)
  {
    forall id ensures Successes(Next(w, Execute(pid, false)).log, id) == Successes(w.log, id) {
      ExecuteCounts(w, pid, false, id);
    }
  }

  /** From nothing an approval can be stranded with no statement failing but the action's
      own: the finding is queued, claimed, queued again, and then the action fails. */
  lemma RequeueStrands(start: World, c: Candidate, action: string, confidence: real, config: Config,
                       actor: string, a: string, b: string)
    returns (steps: seq<Step>)
    requires start.rows == map[] && start.handlers == map[] && start.log == []
    requires TriageStatusForAction(action) != "" && Decide(config, RequestFor(c, confidence)).outcome == Queue
    requires a != b
    ensures steps == [Govern(c, action, confidence, config, a, true), Claim(0, a, actor, true),
                      Govern(c, action, confidence, config, b, true), Execute(0, false), Revert(0, true)]
    ensures Possible(start, steps) && Stranded(Run(start, steps), a)
  {
    var s1, s2 := Govern(c, action, confidence, config, a, true), Claim(0, a, actor, true);
    var s3, s4, s5 := Govern(c, action, confidence, config, b, true), Execute(0, false), Revert(0, true);
    QueueStep(start, c, action, confidence, config, a);
    var w1 := Next(start, s1);
    var w2 := Next(w1, s2);
    QueueStep(w2, c, action, confidence, config, b);
    var w3 := Next(w2, s3);
    FailedExecution(w3, 0);
    var w4 := Next(w3, s4);
    assert w4.rows[b].status.Pending? && w4.rows[b].subject == w4.rows[a].subject;
    var w5 := Next(w4, s5);
    steps := [s1, s2, s3, s4, s5];
    RunFive(start, s1, w1, s2, w2, s3, w3, s4, w4, s5);
  }

  /** A rejection reaches the approval it names exactly when that approval's id is the
      name of the person rejecting. */
  lemma RejectionReaches(w: World, id: string, actor: string, dbOk: bool)
    requires id in w.rows && w.rows[id].status.Pending? && dbOk
    ensures Next(w, Reject(id, actor, dbOk)).rows[id].status.Rejected? <==> actor == id
    ensures actor !in w.rows ==> Next(w, Reject(id, actor, dbOk)) == w
  {
  }

  /** Distinct findings have distinct subjects as long as the first two fields are free of
      the separator. */
  lemma SubjectInjective(c: Candidate, d: Candidate)
    requires '|' !in c.vulnID && '|' !in c.hostID && '|' !in d.vulnID && '|' !in d.hostID
    requires Subject(c) == Subject(d)
    ensures c.vulnID == d.vulnID && c.hostID == d.hostID && c.pkg == d.pkg
  {
    assert Subject(c) == c.vulnID + ['|'] + (c.hostID + "|" + c.pkg);
    assert Subject(d) == d.vulnID + ['|'] + (d.hostID + "|" + d.pkg);
    SplitAtFirst(c.vulnID, c.hostID + "|" + c.pkg, d.vulnID, d.hostID + "|" + d.pkg, '|');
    SplitAtFirst(c.hostID, c.pkg, d.hostID, d.pkg, '|');
  }

  // ---------------------------------------------------------------------
  // The handlers.

  datatype Reply = Done | Conflict | ServerError

  class Server {
    var rows: map<string, Row>
    var triage: map<(string, string, string), string>
    ghost var handlers: map<nat, Handler>
    ghost var log: seq<Execution>

    constructor (triage: map<(string, string, string), string>)
      ensures Inv(Now()) && Now() == World(map[], triage, map[], [])
    {
      rows, this.triage, handlers, log := map[], triage, map[], [];
      new;
      EmptyIsSafe(triage);
    }

    ghost function Now(): World
      reads this
    {
      World(rows, triage, handlers, log)
    }

    /** The single place where a decision becomes a mutation; `id` is the approval it is
        carried out for, if any. */
    method ExecuteAIAction(p: Proposal, actor: string, dbOk: bool, ghost id: Option<string>) returns (ok: bool)
      modifies this
      ensures Now() == Carry(old(Now()), id, p, actor, dbOk)
      ensures ok <==> p.payload.vulnID != "" && (p.payload.status == "accepted_risk" || p.payload.status == "false_positive") && dbOk
    {
      ok := false;
      if p.payload.vulnID != "" && (p.payload.status == "accepted_risk" || p.payload.status == "false_positive") && dbOk {
        triage := triage[(p.payload.vulnID, p.payload.hostID, p.payload.pkg) := p.payload.status];
        ok := true;
      }
      log := log + [Execution(id, p, actor, ok)];
    }

    /** True only when the action was applied at once. */
    method GovernAIAnalysisAction(c: Candidate, action: string, confidence: real, config: Config, newID: string, dbOk: bool)
      returns (applied: bool)
      requires Inv(Now()) && newID !in rows
      modifies this
      ensures Now() == Next(old(Now()), Govern(c, action, confidence, config, newID, dbOk)) && Inv(Now())
      ensures applied <==>
        TriageStatusForAction(action) != "" && Decide(config, RequestFor(c, confidence)).outcome == Apply && c.vulnID != "" && dbOk
      ensures applied ==> Governed(ProposalFor(c, action))
    {
      if TriageStatusForAction(action) != "" && Decide(config, RequestFor(c, confidence)).outcome != Nothing {
        ActedOnMeansGoverned(c, action, confidence, config);
      }
      StepKeepsInv(Now(), Govern(c, action, confidence, config, newID, dbOk));
      applied := false;
      var status := TriageStatusForAction(action);
      if status == "" {
        return;
      }
      var p := Proposal(Payload(c.vulnID, c.hostID, c.pkg, status), c, action);
      match Decide(config, RequestFor(c, confidence)).outcome {
        case Apply =>
          applied := ExecuteAIAction(p, "ai-analyzer", dbOk, None);
        case Queue =>
          if dbOk { rows := Upsert(rows, newID, Subject(c), p); }
        case Nothing =>
      }
    }

    method ClaimAIApproval(id: string, actor: string, dbOk: bool, ghost pid: nat) returns (claimed: Option<Proposal>)
      requires pid !in handlers
      modifies this
      ensures Now() == Next(old(Now()), Claim(pid, id, actor, dbOk))
      ensures claimed == if CanClaim(old(rows), id, dbOk) then Some(old(rows)[id].proposal) else None
    {
      if !dbOk || id !in rows || !rows[id].status.Pending? {
        return None;
      }
      claimed := Some(rows[id].proposal);
      rows := rows[id := rows[id].(status := Approved, decidedBy := actor)];
      handlers := handlers[pid := Claimed(id, claimed.value, actor)];
    }

    method RevertAIApproval(id: string, dbOk: bool, ghost pid: nat)
      requires pid in handlers && handlers[pid] == Failed(id)
      modifies this
      ensures Now() == Next(old(Now()), Revert(pid, dbOk))
    {
      if dbOk && id in rows && rows[id].status.Approved? && !HasPending(rows, rows[id].subject) {
        rows := rows[id := rows[id].(status := Pending, decidedBy := "")];
      }
      handlers := handlers - {pid};
    }

    method RejectAIApproval(id: string, decidedBy: string, dbOk: bool) returns (rejected: bool)
      modifies this`rows
      ensures Now() == Next(old(Now()), Reject(id, decidedBy, dbOk))
      ensures rejected == CanClaim(old(rows), decidedBy, dbOk)
    {
      var first, second := decidedBy, id;
      rejected := dbOk && first in rows && rows[first].status.Pending?;
      if rejected {
        rows := rows[first := rows[first].(status := Rejected, decidedBy := second)];
      }
    }

    /** An approval from claim to end, with no other step in between. */
    method HandleApprove(id: string, actor: string, claimOk: bool, executeOk: bool, revertOk: bool, ghost pid: nat)
      returns (reply: Reply)
      requires Inv(Now()) && pid !in handlers
      modifies this
      ensures Inv(Now())
      ensures (Now(), reply) == ApproveAlone(old(Now()), id, actor, claimOk, executeOk, revertOk, pid)
    {
      if !claimOk {
        return ServerError;
      }
      StepKeepsInv(Now(), Claim(pid, id, actor, claimOk));
      var claimed := ClaimAIApproval(id, actor, claimOk, pid);
      if claimed.None? {
        return Conflict;
      }
      StepKeepsInv(Now(), Execute(pid, executeOk));
      var ok := ExecuteAIAction(claimed.value, actor, executeOk, Some(id));
      if ok {
        handlers := handlers - {pid};
        return Done;
      }
      handlers := handlers[pid := Failed(id)];
      StepKeepsInv(Now(), Revert(pid, revertOk));
      RevertAIApproval(id, revertOk, pid);
      reply := ServerError;
    }

    method HandleReject(id: string, actor: string, dbOk: bool) returns (reply: Reply)
      requires Inv(Now())
      modifies this
      ensures Now() == Next(old(Now()), Reject(id, actor, dbOk)) && Inv(Now())
      ensures reply == if !dbOk then ServerError else if CanClaim(old(rows), actor, true) then Done else Conflict
    {
      RejectKeepsInv(Now(), id, actor, dbOk);
      var rejected := RejectAIApproval(id, actor, dbOk);
      reply := if !dbOk then ServerError else if rejected then Done else Conflict;
    }
  }

  ghost function ApproveAlone(w: World, id: string, actor: string, claimOk: bool, executeOk: bool, revertOk: bool, pid: nat)
    : (World, Reply)
    requires pid !in w.handlers
  {
    if !claimOk then (w, ServerError)
    else if !CanClaim(w.rows, id, claimOk) then (w, Conflict)
    else
      var v := Next(Next(w, Claim(pid, id, actor, claimOk)), Execute(pid, executeOk));
      if Executable(w.rows[id].proposal.payload) && executeOk then (v, Done)
      else (Next(v, Revert(pid, revertOk)), ServerError)
  }

  /** Done means the queued proposal itself was carried out, for the first time. */
  lemma DoneMeansCarriedOut(w: World, id: string, actor: string, claimOk: bool, executeOk: bool, revertOk: bool, pid: nat)
    requires Inv(w) && pid !in w.handlers
    requires ApproveAlone(w, id, actor, claimOk, executeOk, revertOk, pid).1.Done?
    ensures var v := ApproveAlone(w, id, actor, claimOk, executeOk, revertOk, pid).0;
      && id in w.rows && Successes(w.log, id) == 0 && Successes(v.log, id) == 1
      && v.log == w.log + [Execution(Some(id), w.rows[id].proposal, actor, true)]
      && id in v.rows && v.rows[id].status.Approved? && v.rows[id].decidedBy == actor
  {
    var c := Next(w, Claim(pid, id, actor, claimOk));
    ExecuteCounts(c, pid, executeOk, id);
    assert Successes(w.log, id) <= 1;
  }

  /** A failed approval changes no finding, and leaves the approval pending again or
      settled: stranded, if it could not be put back. */
  lemma FailedApproval(w: World, id: string, actor: string, executeOk: bool, revertOk: bool, pid: nat)
    requires Inv(w) && pid !in w.handlers && CanClaim(w.rows, id, true)
    requires ApproveAlone(w, id, actor, true, executeOk, revertOk, pid).1.ServerError?
    ensures var v := ApproveAlone(w, id, actor, true, executeOk, revertOk, pid).0;
      && v.triage == w.triage && id in v.rows
      && (if revertOk then v.rows[id].status.Pending? else Stranded(v, id))
  {
    var c := Next(w, Claim(pid, id, actor, true));
    ClaimKeepsInv(w, pid, id, actor, true);
    assert c.rows[id].subject == w.rows[id].subject;
    assert !HasPending(c.rows, c.rows[id].subject);
  }
}
