/** The deterministic gate in front of every write: risk from the operation and
    its measured effects, protected chains, and the fixed policy table. */
module Authorization {
  import opened Ordering

  datatype Risk =
    | ReadOnly | SafeReversible | ConfigMutation | RestartRequired
    | PhysicalStateChange | SecurityCritical | Destructive

  datatype Decision = Automatic | RequiresApproval | Blocked

  datatype Verdict = Allowed | NeedsApproval | Severed

  /** One enabled protected dependency. */
  datatype Dependency = Dependency(protects: set<string>, critical: bool)

  datatype Operation = Operation(risk: Risk, severing: bool, readOnly: bool)

  const ReplaceReference := Operation(ConfigMutation, false, false)

  /** `ProtectedDependencyRegistry.evaluate`; `severing` is what the action type
      or the stated intent text suggests. */
  function Evaluate(registry: seq<Dependency>, entities: set<string>, severing: bool, readOnly: bool): Verdict {
    if forall d :: d in registry ==> d.protects !! entities then Allowed
    else
      var critical := exists d :: d in registry && !(d.protects !! entities) && d.critical;
      if critical && (severing || !readOnly) then Severed else NeedsApproval
  }

  function Domain(entity: string): string {
    if entity == [] || entity[0] == '.' then [] else [entity[0]] + Domain(entity[1..])
  }

  const SecurityDomains: set<string> := {"lock", "alarm_control_panel", "siren"}

  function ClassifyRisk(op: Operation, added: set<string>): Risk {
    if exists e :: e in added && Domain(e) in SecurityDomains then SecurityCritical
    else if added != {} then PhysicalStateChange
    else op.risk
  }

  function Policy(risk: Risk): Decision {
    match risk
    case ReadOnly | SafeReversible => Automatic
    case ConfigMutation | RestartRequired => RequiresApproval
    case PhysicalStateChange | SecurityCritical | Destructive => Blocked
  }

  datatype Authorized = Authorized(decision: Decision, risk: Risk, verdict: Verdict)

  /** `intentSevers` says whether the free text of the request reads as severing;
      `backed` whether unattended execution has deterministic backing. */
  function Authorize(registry: seq<Dependency>, op: Operation, targets: set<string>, added: set<string>,
                     intentSevers: bool, backed: bool, approvedBy: string): Authorized
  {
    var risk := ClassifyRisk(op, added);
    var verdict := Evaluate(registry, targets + added, added != {} || op.severing || intentSevers,
                            added == {} && op.readOnly);
    var policy := Policy(risk);
    if verdict == Severed || policy == Blocked then Authorized(Blocked, risk, verdict)
    else if risk == SafeReversible && !backed then Authorized(RequiresApproval, risk, verdict)
    else if policy == RequiresApproval && approvedBy != "" then Authorized(Automatic, risk, verdict)
    else Authorized(policy, risk, verdict)
  }

  /** No wording of a request moves the decision about a reference replacement. */
  lemma WordingIsIgnored(registry: seq<Dependency>, targets: set<string>, added: set<string>,
                         one: bool, other: bool, backed: bool, also: bool, approvedBy: string)
    ensures Authorize(registry, ReplaceReference, targets, added, one, backed, approvedBy)
         == Authorize(registry, ReplaceReference, targets, added, other, also, approvedBy)
  {
    var a := Evaluate(registry, targets + added, added != {} || one, false);
    var b := Evaluate(registry, targets + added, added != {} || other, false);
    assert a == b;
  }

  ghost predicate CriticalTouched(registry: seq<Dependency>, entities: set<string>) {
    exists d :: d in registry && d.critical && exists e :: e in d.protects && e in entities
  }

  /** The gate for any operation. It stays shut over a physical, security or destructive
      effect, and over a critical protected chain unless the operation reads alone, gains
      nothing and reads as nothing worse; it opens by itself for reading, with backing
      for what can be undone, and with an approval for configuration. */
  lemma AuthorizeIff(registry: seq<Dependency>, op: Operation, targets: set<string>, added: set<string>,
                     severs: bool, backed: bool, approvedBy: string)
    ensures var a := Authorize(registry, op, targets, added, severs, backed, approvedBy);
      var innocent := op.readOnly && added == {} && !op.severing && !severs;
      (a.decision == Blocked <==>
         (CriticalTouched(registry, targets + added) && !innocent)
         || a.risk == PhysicalStateChange || a.risk == SecurityCritical || a.risk == Destructive)
      && (a.decision == Automatic <==>
            a.decision != Blocked
            && (a.risk == ReadOnly || (a.risk == SafeReversible && backed)
                || ((a.risk == ConfigMutation || a.risk == RestartRequired) && approvedBy != "")))
      && (a.risk == if added == {} then op.risk
                    else if exists e :: e in added && Domain(e) in {"lock", "alarm_control_panel", "siren"} then SecurityCritical
                    else PhysicalStateChange)
  {
    var entities := targets + added;
    forall d | d in registry ensures d.protects !! entities <==> !exists e :: e in d.protects && e in entities {}
    if forall d :: d in registry ==> d.protects !! entities {
      assert !CriticalTouched(registry, entities);
    }
  }

  /** The risk of a replacement is that of the worst it gains power over, and its
      verdict that of the protected chains it touches. */
  lemma ReplacementRated(registry: seq<Dependency>, targets: set<string>, added: set<string>,
                         severs: bool, backed: bool, approvedBy: string)
    ensures var a := Authorize(registry, ReplaceReference, targets, added, severs, backed, approvedBy);
      (a.risk == SecurityCritical <==>
         exists e :: e in added && (Domain(e) == "lock" || Domain(e) == "alarm_control_panel" || Domain(e) == "siren"))
      && (a.risk == ConfigMutation <==> added == {})
      && a.risk in {SecurityCritical, ConfigMutation, PhysicalStateChange}
      && (a.verdict == Allowed <==> forall d :: d in registry ==> d.protects !! targets + added)
      && (a.verdict == Severed <==> exists d :: d in registry && d.critical && !(d.protects !! targets + added))
  {
    if forall d :: d in registry ==> d.protects !! targets + added {
      assert !exists d :: d in registry && d.critical && !(d.protects !! targets + added);
    }
  }

  /** Nobody having approved it yet, a replacement is refused exactly when it gives
      something the power to switch a device off or touches a critical protected chain;
      refused or not, nothing gained makes it a configuration change. */
  lemma ReplacementBlockedIff(registry: seq<Dependency>, targets: set<string>, added: set<string>, severs: bool, backed: bool)
    ensures var a := Authorize(registry, ReplaceReference, targets, added, severs, backed, "");
      (added == {} ==>
         (a.decision == Blocked <==> exists d :: d in registry && d.critical && !(d.protects !! targets))
         && a.risk == ConfigMutation && (a.decision != Blocked ==> a.decision == RequiresApproval))
      && (added != {} ==> a.decision == Blocked && a.risk in {PhysicalStateChange, SecurityCritical})
  {
    assert targets + {} == targets;
    if added == {} {
      assert targets + added == targets;
      if forall d :: d in registry ==> d.protects !! targets {
        assert !exists d :: d in registry && d.critical && !(d.protects !! targets);
      }
    }
  }

  /** A replacement runs exactly when someone approved it, it gives nothing the
      power to switch a device off, and it touches no critical protected chain. */
  lemma ReplacementRunsIff(registry: seq<Dependency>, targets: set<string>, added: set<string>,
                           severs: bool, backed: bool, approvedBy: string)
    ensures Authorize(registry, ReplaceReference, targets, added, severs, backed, approvedBy).decision == Automatic
       <==> approvedBy != "" && added == {}
            && forall d :: d in registry && d.critical ==> d.protects !! targets
  {
    assert targets + {} == targets;
    var v := Evaluate(registry, targets + added, added != {} || severs, false);
    if added == {} {
      assert targets + added == targets;
      if v != Severed {
        forall d | d in registry && d.critical ensures d.protects !! targets {}
      } else {
        var d :| d in registry && !(d.protects !! targets) && d.critical;
      }
    }
  }
}
