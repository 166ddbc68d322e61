/**
 The flash sequence editor, its validator and the runner. A step handler is an oracle that passes or
 fails; a cancellation request is an oracle too, asked where the runner polls its flag. Whether a chosen
 file exists is part of the sequence.
 */
module Flash {
  import opened Common

  datatype Kind =
    | CanInit | CanConfig | EcuComm | ReadVin | ReadHardware | ReadSoftware | SecurityAccess | EraseMemory
    | FileUpload | RequestDownload | TransferData | TransferExit | EcuReset | EnterExtended | EnterProgramming
    | EnterDefault | TesterPresent | DisableDtc | EnableDtc | DisableCommunication | EnableCommunication
    | ClearDtc | ReadDtc | CheckProgrammingDependencies | CheckMemory | VerifyChecksum | ReadBatteryVoltage
    | ReadDid | WriteDid | RoutineControl | RawRequest | Delay

  const REPEATABLE: set<Kind> :=
    {TesterPresent, ReadDid, WriteDid, ReadDtc, RoutineControl, RawRequest, Delay, EnterExtended, EnterProgramming,
     EnterDefault, SecurityAccess, FileUpload, RequestDownload, TransferData, TransferExit, EraseMemory}

  const REQUIRES_FILE: set<Kind> := {FileUpload, RequestDownload, TransferData, TransferExit, VerifyChecksum}

  /** `(kind, what must run before it)`. */
  const ORDER_RULES: seq<(Kind, Kind)> :=
    [(CanConfig, CanInit), (EcuComm, CanInit), (RequestDownload, FileUpload), (TransferData, RequestDownload),
     (TransferExit, TransferData)]

  datatype Status = Pending | Running | Passed | Failed | Skipped

  datatype Step = Step(kind: Kind, enabled: bool, status: Status)

  datatype FileChoice = NotChosen | Exists | DoesNotExist

  // ---------- editing ----------

  function Moved<T>(s: seq<T>, from: nat, to: nat): (r: seq<T>)
    requires from < |s| && to < |s|
    ensures |r| == |s|
  {
    var rest := s[..from] + s[from + 1..];
    rest[..to] + [s[from]] + rest[to..]
  }

  /** Where the element at place `k` of the moved sequence comes from. */
  function Origin(from: nat, to: nat, k: nat): nat {
    if k == to then from else if from <= k < to then k + 1 else if to < k <= from then k - 1 else k
  }

  /** A move shifts the steps between its ends by one place and touches no other. */
  lemma MoveShifts<T>(s: seq<T>, from: nat, to: nat)
    requires from < |s| && to < |s|
    ensures forall k :: 0 <= k < |s| ==> Moved(s, from, to)[k] == s[Origin(from, to, k)]
  {
  }

  /** Moving back restores the sequence. */
  lemma MoveUndoes<T>(s: seq<T>, from: nat, to: nat)
    requires from < |s| && to < |s|
    ensures Moved(Moved(s, from, to), to, from) == s
  {
    var m := Moved(s, from, to);
    MoveShifts(s, from, to);
    MoveShifts(m, to, from);
    forall k | 0 <= k < |s| ensures Moved(m, to, from)[k] == s[k] {
      assert Origin(from, to, Origin(to, from, k)) == k;
    }
  }

  // ---------- validation ----------

  function EnabledKinds(steps: seq<Step>): seq<Kind> {
    if steps == [] then []
    else (if steps[0].enabled then [steps[0].kind] else []) + EnabledKinds(steps[1..])
  }

  /** Position of the first occurrence. */
  function First(kinds: seq<Kind>, kind: Kind): (i: nat)
    requires kind in kinds
    ensures i < |kinds| && kinds[i] == kind && forall j :: 0 <= j < i ==> kinds[j] != kind
  {
    if kinds[0] == kind then 0 else 1 + First(kinds[1..], kind)
  }

  datatype Problem =
    | NoFlashFile
    | FlashFileMissing
    | SecurityFileMissing
    | Repeated(kind: Kind, count: nat)
    | OutOfOrder(kind: Kind, predecessor: Kind)

  predicate NeedsFile(kinds: seq<Kind>) {
    exists i :: 0 <= i < |kinds| && kinds[i] in REQUIRES_FILE
  }

  predicate Misordered(kinds: seq<Kind>, rule: (Kind, Kind)) {
    rule.0 in kinds && rule.1 in kinds && First(kinds, rule.1) > First(kinds, rule.0)
  }

  /** Exactly what `validate` has to report. */
  predicate IsProblem(kinds: seq<Kind>, flash: FileChoice, security: FileChoice, p: Problem) {
    match p
    case NoFlashFile => flash.NotChosen? && NeedsFile(kinds)
    case FlashFileMissing => flash.DoesNotExist?
    case SecurityFileMissing => security.DoesNotExist?
    case Repeated(kind, count) => kind !in REPEATABLE && count > 1 && multiset(kinds)[kind] == count
    case OutOfOrder(kind, predecessor) => (kind, predecessor) in ORDER_RULES && Misordered(kinds, (kind, predecessor))
  }

  /** `a` occurs, and before the first `b`. */
  predicate Before(kinds: seq<Kind>, a: Kind, b: Kind) {
    exists i :: 0 <= i < |kinds| && kinds[i] == a && b !in kinds[..i + 1]
  }

  lemma BeforeIsFirst(kinds: seq<Kind>, a: Kind, b: Kind)
    requires a in kinds && b in kinds && a != b
    ensures Before(kinds, a, b) <==> First(kinds, a) < First(kinds, b)
  {
    var f, g := First(kinds, a), First(kinds, b);
    if f < g {
      assert kinds[f] == a && b !in kinds[..f + 1];
    }
    if i :| 0 <= i < |kinds| && kinds[i] == a && b !in kinds[..i + 1] {
      forall k | 0 <= k <= i ensures kinds[k] != b {
        assert kinds[..i + 1][k] == kinds[k];
      }
    }
  }

  /** The steps the other one must not come before. */
  predicate MustPrecede(a: Kind, b: Kind) {
    match b
    case CanConfig => a == CanInit
    case EcuComm => a == CanInit
    case RequestDownload => a == FileUpload
    case TransferData => a == RequestDownload
    case TransferExit => a == TransferData
    case _ => false
  }

  /** Steps that make sense only once: opening the connection, identifying, switching and checking. */
  predicate Once(kind: Kind) {
    match kind
    case CanInit | CanConfig | EcuComm | ReadVin | ReadHardware | ReadSoftware | EcuReset => true
    case DisableDtc | EnableDtc | DisableCommunication | EnableCommunication | ClearDtc => true
    case CheckProgrammingDependencies | CheckMemory | VerifyChecksum | ReadBatteryVoltage => true
    case _ => false
  }

  lemma RepeatsByName(kinds: seq<Kind>, flash: FileChoice, security: FileChoice, kind: Kind, count: nat)
    ensures IsProblem(kinds, flash, security, Repeated(kind, count)) <==>
            Once(kind) && multiset(kinds)[kind] == count >= 2
  {
    assert kind in REPEATABLE <==> !Once(kind);
  }

  lemma DisordersByName(kinds: seq<Kind>, flash: FileChoice, security: FileChoice, a: Kind, b: Kind)
    ensures IsProblem(kinds, flash, security, OutOfOrder(b, a)) <==>
            MustPrecede(a, b) && a in kinds && b in kinds && !Before(kinds, a, b)
  {
    RulesByName(a, b);
    hide MustPrecede, Before, First, ORDER_RULES;
    if a in kinds && b in kinds && a != b {
      BeforeIsFirst(kinds, a, b);
    }
  }

  lemma FilesByName(kinds: seq<Kind>, flash: FileChoice, security: FileChoice)
    ensures IsProblem(kinds, flash, security, NoFlashFile) <==>
            flash == NotChosen
            && (FileUpload in kinds || RequestDownload in kinds || TransferData in kinds || TransferExit in kinds
                || VerifyChecksum in kinds)
    ensures IsProblem(kinds, flash, security, FlashFileMissing) <==> flash == DoesNotExist
    ensures IsProblem(kinds, flash, security, SecurityFileMissing) <==> security == DoesNotExist
  {
  }

  /** What is reported, step by step, without the tables. */
  lemma ProblemsByName(kinds: seq<Kind>, flash: FileChoice, security: FileChoice, p: Problem)
    ensures IsProblem(kinds, flash, security, p) <==>
      match p
      case NoFlashFile =>
        flash == NotChosen
        && (FileUpload in kinds || RequestDownload in kinds || TransferData in kinds || TransferExit in kinds
            || VerifyChecksum in kinds)
      case FlashFileMissing => flash == DoesNotExist
      case SecurityFileMissing => security == DoesNotExist
      case Repeated(kind, count) => Once(kind) && multiset(kinds)[kind] == count >= 2
      case OutOfOrder(b, a) => MustPrecede(a, b) && a in kinds && b in kinds && !Before(kinds, a, b)
  {
    hide IsProblem, Once, MustPrecede, Before;
    FilesByName(kinds, flash, security);
    match p
    case Repeated(kind, count) => RepeatsByName(kinds, flash, security, kind, count);
    case OutOfOrder(b, a) => DisordersByName(kinds, flash, security, a, b);
    case _ =>
  }

  lemma RulesByName(a: Kind, b: Kind)
    ensures (b, a) in ORDER_RULES <==> MustPrecede(a, b)
    ensures MustPrecede(a, b) ==> a != b
  {
    if (b, a) in ORDER_RULES {
      RuleIsNamed(a, b);
    }
    if MustPrecede(a, b) {
      NamedIsRule(a, b);
    }
  }

  lemma RuleIsNamed(a: Kind, b: Kind)
    requires (b, a) in ORDER_RULES
    ensures MustPrecede(a, b)
  {
    var i :| 0 <= i < 5 && ORDER_RULES[i] == (b, a);
  }

  lemma NamedIsRule(a: Kind, b: Kind)
    requires MustPrecede(a, b)
    ensures (b, a) in ORDER_RULES && a != b
  {
    var i := if b == CanConfig then 0 else if b == EcuComm then 1 else if b == RequestDownload then 2
             else if b == TransferData then 3 else 4;
    assert ORDER_RULES[i] == (b, a);
  }

  /** The thirteen steps of the specification. */
  predicate IsDefault(kind: Kind) {
    match kind
    case CanInit | CanConfig | EcuComm | ReadVin | ReadHardware | ReadSoftware | SecurityAccess | EraseMemory => true
    case FileUpload | RequestDownload | TransferData | TransferExit | EcuReset => true
    case _ => false
  }

  /**
   Whatever order the default steps are dragged into: the sequence is valid if and only if the files are there, the
   connection is opened before it is used, and upload, request, transfer and exit follow each other.
   */
  lemma RearrangedDefault(kinds: seq<Kind>, flash: FileChoice, security: FileChoice)
    requires forall kind :: multiset(kinds)[kind] == if IsDefault(kind) then 1 else 0
    ensures (forall p :: !IsProblem(kinds, flash, security, p)) <==>
            flash == Exists && security != DoesNotExist && InSequence(kinds)
  {
    hide IsProblem, InSequence;
    if forall p :: !IsProblem(kinds, flash, security, p) {
      FilesByName(kinds, flash, security);
      DefaultsOccur(kinds);
      forall a, b | MustPrecede(a, b) ensures Before(kinds, a, b) {
        DisordersByName(kinds, flash, security, a, b);
        NamedAreDefault(a, b);
        assert !IsProblem(kinds, flash, security, OutOfOrder(b, a));
      }
      NamedInSequence(kinds);
    }
    if flash == Exists && security != DoesNotExist && InSequence(kinds) {
      forall p ensures !IsProblem(kinds, flash, security, p) {
        ProblemsByName(kinds, flash, security, p);
        NamedInSequence(kinds);
      }
    }
  }

  /** The connection is opened before it is used, and upload, request, transfer and exit follow each other. */
  predicate InSequence(kinds: seq<Kind>) {
    && Before(kinds, CanInit, CanConfig) && Before(kinds, CanInit, EcuComm)
    && Before(kinds, FileUpload, RequestDownload) && Before(kinds, RequestDownload, TransferData)
    && Before(kinds, TransferData, TransferExit)
  }

  lemma NamedInSequence(kinds: seq<Kind>)
    ensures InSequence(kinds) <==> forall a, b :: MustPrecede(a, b) ==> Before(kinds, a, b)
  {
    hide Before;
    if forall a, b :: MustPrecede(a, b) ==> Before(kinds, a, b) {
      assert MustPrecede(CanInit, CanConfig) && MustPrecede(CanInit, EcuComm);
      assert MustPrecede(FileUpload, RequestDownload) && MustPrecede(RequestDownload, TransferData);
      assert MustPrecede(TransferData, TransferExit);
    }
  }

  lemma NamedAreDefault(a: Kind, b: Kind)
    requires MustPrecede(a, b)
    ensures IsDefault(a) && IsDefault(b)
  {
  }

  lemma DefaultsOccur(kinds: seq<Kind>)
    requires forall kind :: multiset(kinds)[kind] == if IsDefault(kind) then 1 else 0
    ensures forall kind :: IsDefault(kind) ==> kind in kinds
  {
    forall kind | IsDefault(kind) ensures kind in kinds {
      assert multiset(kinds)[kind] == 1;
      assert kind in multiset(kinds);
    }
  }

  class FlashSequence {
    var steps: seq<Step>
    var flashFile: FileChoice
    var securityFile: FileChoice

    constructor (steps: seq<Step>, flashFile: FileChoice, securityFile: FileChoice)
      ensures this.steps == steps && this.flashFile == flashFile && this.securityFile == securityFile
    {
      this.steps, this.flashFile, this.securityFile := steps, flashFile, securityFile;
    }

    method Move(from: int, to: int) returns (applied: bool)
      modifies this`steps
      ensures applied == (0 <= from < |old(steps)| && 0 <= to < |old(steps)|)
      ensures steps == if applied then Moved(old(steps), from, to) else old(steps)
    {
      if !(0 <= from < |steps| && 0 <= to < |steps|) {
        return false;
      }
      var step := steps[from];
      steps := steps[..from] + steps[from + 1..];
      steps := steps[..to] + [step] + steps[to..];
      return true;
    }

    method Add(kind: Kind, index: Option<int>)
      modifies this`steps
      ensures var at := if index.None? then |old(steps)| else Max(0, Min(index.value, |old(steps)|));
              steps == old(steps)[..at] + [Step(kind, true, Pending)] + old(steps)[at..]
    {
      var step := Step(kind, true, Pending);
      if index.None? {
        assert steps[..|steps|] == steps && steps[|steps|..] == [];
        steps := steps + [step];
      } else {
        var at := Max(0, Min(index.value, |steps|));
        steps := steps[..at] + [step] + steps[at..];
      }
    }

    method Remove(index: int) returns (removed: bool)
      modifies this`steps
      ensures removed == (0 <= index < |old(steps)|)
      ensures steps == if removed then old(steps)[..index] + old(steps)[index + 1..] else old(steps)
    {
      if !(0 <= index < |steps|) {
        return false;
      }
      steps := steps[..index] + steps[index + 1..];
      return true;
    }

    /** Reports exactly the problems of the enabled steps and the chosen files. */
    method Validate() returns (problems: seq<Problem>)
      ensures forall p :: p in problems <==> IsProblem(EnabledKinds(steps), flashFile, securityFile, p)
    {
      var kinds := EnabledKinds(steps);
      problems := [];
      if NeedsFile(kinds) && flashFile.NotChosen? {
        problems := problems + [NoFlashFile];
      } else if flashFile.DoesNotExist? {
        problems := problems + [FlashFileMissing];
      }
      if securityFile.DoesNotExist? {
        problems := problems + [SecurityFileMissing];
      }
      var repeats := FindRepeats(kinds);
      var disorders := FindDisorders(kinds);
      problems := problems + repeats + disorders;
    }

    method FindRepeats(kinds: seq<Kind>) returns (problems: seq<Problem>)
      ensures forall p :: p in problems <==> p.Repeated? && IsProblem(kinds, flashFile, securityFile, p)
    {
      problems := [];
      var left := set k | k in kinds;
      ghost var all := left;
      while left != {}
        invariant left <= all
        invariant forall p :: p in problems <==>
                    p.Repeated? && IsProblem(kinds, flashFile, securityFile, p) && p.kind in all - left
        decreases |left|
      {
        var kind :| kind in left;
        left := left - {kind};
        var count := multiset(kinds)[kind];
        if count > 1 && kind !in REPEATABLE {
          problems := problems + [Repeated(kind, count)];
        }
      }
      assert forall k :: multiset(kinds)[k] > 1 ==> k in multiset(kinds);
    }

    method FindDisorders(kinds: seq<Kind>) returns (problems: seq<Problem>)
      ensures forall p :: p in problems <==> p.OutOfOrder? && IsProblem(kinds, flashFile, securityFile, p)
    {
      var position := FirstPositions(kinds);
      problems := [];
      var r := 0;
      while r < |ORDER_RULES|
        invariant 0 <= r <= |ORDER_RULES|
        invariant forall p :: p in problems <==>
                    p.OutOfOrder? && (p.kind, p.predecessor) in ORDER_RULES[..r] &&
                    Misordered(kinds, (p.kind, p.predecessor))
      {
        var (kind, predecessor) := ORDER_RULES[r];
        if kind in position && predecessor in position && position[predecessor] > position[kind] {
          problems := problems + [OutOfOrder(kind, predecessor)];
        }
        assert ORDER_RULES[..r + 1] == ORDER_RULES[..r] + [ORDER_RULES[r]];
        r := r + 1;
      }
      assert ORDER_RULES[..r] == ORDER_RULES;
    }
  }

  method FirstPositions(kinds: seq<Kind>) returns (position: map<Kind, nat>)
    ensures forall k :: k in position <==> k in kinds
    ensures forall k :: k in kinds ==> position[k] == First(kinds, k)
  {
    position := map[];
    for index := 0 to |kinds|
      invariant forall k :: k in position <==> k in kinds[..index]
      invariant forall k :: k in position ==> position[k] == First(kinds, k)
    {
      assert kinds[..index + 1] == kinds[..index] + [kinds[index]];
      if kinds[index] !in position {
        position := position[kinds[index] := index];
      }
    }
    assert kinds[..|kinds|] == kinds;
  }

  // ---------- running ----------

  /** `position` identifies the step of the sequence the outcome belongs to. */
  datatype Outcome = Outcome(position: nat, kind: Kind, status: Status)

  datatype Report = Report(outcomes: seq<Outcome>, cancelled: bool, steps: seq<Step>)

  /** What the outside contributes to a run: handler verdicts and cancellation, by step position. */
  datatype Outside = Outside(passes: nat -> bool, cancelled: nat -> bool)

  function Verdict(o: Outside, k: nat): Status {
    if o.passes(k) then Passed else Failed
  }

  /** The run from step `k` on. */
  function RunFrom(steps: seq<Step>, k: nat, stopOnFailure: bool, o: Outside, outcomes: seq<Outcome>): Report
    requires k <= |steps|
    decreases |steps| - k
  {
    if k == |steps| then Report(outcomes, false, steps)
    else if o.cancelled(k) then Report(outcomes, true, steps[k := steps[k].(status := Skipped)])
    else
      var status := if steps[k].enabled then Verdict(o, k) else Skipped;
      var marked := steps[k := steps[k].(status := status)];
      var longer := outcomes + [Outcome(k, steps[k].kind, status)];
      if status.Failed? && stopOnFailure then Report(longer, false, marked)
      else RunFrom(marked, k + 1, stopOnFailure, o, longer)
  }

  function ResetSteps(steps: seq<Step>): seq<Step> {
    seq(|steps|, k requires 0 <= k < |steps| => steps[k].(status := Pending))
  }

  function RunAll(steps: seq<Step>, stopOnFailure: bool, o: Outside): Report {
    RunFrom(ResetSteps(steps), 0, stopOnFailure, o, [])
  }

  class FlashRunner {
    var steps: seq<Step>
    var outcomes: seq<Outcome>
    var cancelled: bool
    var reportCancelled: bool

    constructor ()
      ensures steps == [] && outcomes == [] && !cancelled && !reportCancelled
    {
      steps, outcomes := [], [];
      cancelled, reportCancelled := false, false;
    }

    method Cancel()
      modifies this`cancelled
      ensures cancelled
    {
      cancelled := true;
    }

    method Run(sequence: seq<Step>, stopOnFailure: bool, o: Outside)
      modifies this
      ensures Report(outcomes, reportCancelled, steps) == RunAll(sequence, stopOnFailure, o)
    {
      cancelled, reportCancelled := false, false;
      steps := ResetSteps(sequence);
      outcomes := [];
      var k := 0;
      while k < |steps|
        invariant 0 <= k <= |steps| && !reportCancelled && !cancelled
        invariant RunFrom(steps, k, stopOnFailure, o, outcomes) == RunAll(sequence, stopOnFailure, o)
      {
        if o.cancelled(k) {
          Cancel();
        }
        if cancelled {
          reportCancelled := true;
          steps := steps[k := steps[k].(status := Skipped)];
          return;
        }
        if !steps[k].enabled {
          outcomes := outcomes + [Outcome(k, steps[k].kind, Skipped)];
          steps := steps[k := steps[k].(status := Skipped)];
          k := k + 1;
          continue;
        }
        var status := RunStep(k, o.passes(k));
        outcomes := outcomes + [Outcome(k, steps[k].kind, status)];
        if status == Failed && stopOnFailure {
          return;
        }
        k := k + 1;
      }
    }

    method RunStep(k: nat, handlerPasses: bool) returns (status: Status)
      requires k < |steps|
      modifies this`steps
      ensures status == if handlerPasses then Passed else Failed
      ensures steps == old(steps)[k := old(steps)[k].(status := status)]
    {
      steps := steps[k := steps[k].(status := Running)];
      status := if handlerPasses then Passed else Failed;
      steps := steps[k := steps[k].(status := status)];
      assert steps == old(steps)[k := old(steps)[k].(status := status)];
    }
  }

  // ---------- what a run reports ----------

  /** The outcomes are those of the first steps, in order. */
  predicate Follows(steps: seq<Step>, o: Outside, outcomes: seq<Outcome>) {
    && |outcomes| <= |steps|
    && forall k :: 0 <= k < |outcomes| ==>
         outcomes[k] == Outcome(k, steps[k].kind,
                                if !steps[k].enabled then Skipped else if o.passes(k) then Passed else Failed)
  }

  predicate FailsAt(outcomes: seq<Outcome>, k: nat) {
    k < |outcomes| && outcomes[k].status.Failed?
  }

  /** A failure ends the run, if failures stop it. */
  ghost predicate StopsAtFailure(outcomes: seq<Outcome>) {
    forall k: nat :: FailsAt(outcomes, k) ==> k == |outcomes| - 1
  }

  /** `completed`: nothing failed and the run was not cancelled. */
  ghost predicate Completed(r: Report) {
    !r.cancelled && forall k: nat :: !FailsAt(r.outcomes, k)
  }

  /** Same steps but for the status. */
  predicate SameSteps(a: seq<Step>, b: seq<Step>) {
    |a| == |b| && forall k :: 0 <= k < |a| ==> a[k].kind == b[k].kind && a[k].enabled == b[k].enabled
  }

  /** Reached steps carry their outcome's status. */
  predicate Marked(steps: seq<Step>, outcomes: seq<Outcome>) {
    |outcomes| <= |steps| && forall k :: 0 <= k < |outcomes| ==> steps[k].status == outcomes[k].status
  }

  /** One more step of a run, whatever becomes of it. */
  lemma StepReports(original: seq<Step>, steps: seq<Step>, o: Outside, outcomes: seq<Outcome>, status: Status)
    requires |outcomes| < |steps| && SameSteps(original, steps)
    requires Follows(original, o, outcomes) && Marked(steps, outcomes)
    ensures var k := |outcomes|;
            var marked := steps[k := steps[k].(status := status)];
            var longer := outcomes + [Outcome(k, steps[k].kind, status)];
            && SameSteps(original, marked) && Marked(marked, outcomes) && Marked(marked, longer)
            && (status == (if steps[k].enabled then Verdict(o, k) else Skipped) ==> Follows(original, o, longer))
            && (forall i: nat :: FailsAt(longer, i) <==> FailsAt(outcomes, i) || (i == k && status.Failed?))
  {
    var k := |outcomes|;
    var longer := outcomes + [Outcome(k, steps[k].kind, status)];
    assert forall i :: 0 <= i < k ==> longer[i] == outcomes[i];
  }

  lemma {:induction false} RunFromReports(original: seq<Step>, steps: seq<Step>, k: nat, stop: bool, o: Outside,
                                          outcomes: seq<Outcome>)
    requires k == |outcomes| && k <= |steps| && SameSteps(original, steps)
    requires Follows(original, o, outcomes) && Marked(steps, outcomes)
    requires stop ==> forall i: nat :: !FailsAt(outcomes, i)
    ensures var r := RunFrom(steps, k, stop, o, outcomes);
            && SameSteps(original, r.steps) && Follows(original, o, r.outcomes) && Marked(r.steps, r.outcomes)
            && (stop ==> StopsAtFailure(r.outcomes))
            && (|r.outcomes| == |original| ==> !r.cancelled)
            && (|r.outcomes| < |original| ==>
                  r.cancelled || (stop && r.outcomes != [] && FailsAt(r.outcomes, |r.outcomes| - 1)))
    decreases |steps| - k
  {
    assert |original| == |steps|;
    hide Follows, Marked, SameSteps, FailsAt;
    if k < |steps| {
      var status := if o.cancelled(k) || !steps[k].enabled then Skipped else Verdict(o, k);
      var marked := steps[k := steps[k].(status := status)];
      var longer := outcomes + [Outcome(k, steps[k].kind, status)];
      StepReports(original, steps, o, outcomes, status);
      if !o.cancelled(k) && !(status.Failed? && stop) {
        RunFromReports(original, marked, k + 1, stop, o, longer);
      }
    }
  }

  /**
   Outcomes are an in-order prefix of the steps, and with `stop_on_failure` at most the last one failed.
   A run that ends early was cancelled or stopped by that failure.
   */
  lemma RunReports(steps: seq<Step>, stop: bool, o: Outside)
    ensures var r := RunAll(steps, stop, o);
            && Follows(steps, o, r.outcomes) && SameSteps(steps, r.steps) && Marked(r.steps, r.outcomes)
            && (stop ==> StopsAtFailure(r.outcomes))
            && (|r.outcomes| == |steps| ==> !r.cancelled)
            && (|r.outcomes| < |steps| ==>
                  r.cancelled || (stop && r.outcomes != [] && FailsAt(r.outcomes, |r.outcomes| - 1)))
  {
    RunFromReports(steps, ResetSteps(steps), 0, stop, o, []);
  }

  /** `completed` holds exactly if every enabled step ran, once, and passed. */
  lemma CompletedMeansAllPassed(steps: seq<Step>, stop: bool, o: Outside)
    ensures var r := RunAll(steps, stop, o);
            Completed(r) <==>
            && |r.outcomes| == |steps|
            && forall k :: 0 <= k < |steps| ==>
                 r.outcomes[k] == Outcome(k, steps[k].kind, if steps[k].enabled then Passed else Skipped)
  {
    RunReports(steps, stop, o);
    var r := RunAll(steps, stop, o);
    if Completed(r) {
      assert |r.outcomes| > 0 ==> !FailsAt(r.outcomes, |r.outcomes| - 1);
      forall k | 0 <= k < |steps|
        ensures r.outcomes[k] == Outcome(k, steps[k].kind, if steps[k].enabled then Passed else Skipped)
      {
        assert !FailsAt(r.outcomes, k);
      }
    }
  }

  // ---------- validated order ----------

  predicate Executed(outcomes: seq<Outcome>, k: nat) {
    k < |outcomes| && !outcomes[k].status.Skipped?
  }

  /** The first executed step of the ruled kind comes after an executed and passed step of the predecessor. */
  ghost predicate Respects(outcomes: seq<Outcome>, rule: (Kind, Kind)) {
    forall k: nat :: Executed(outcomes, k) && outcomes[k].kind == rule.0 ==>
      exists j :: 0 <= j < k && outcomes[j].kind == rule.1 && outcomes[j].status.Passed?
  }

  predicate Enabled(steps: seq<Step>, kind: Kind) {
    exists k :: 0 <= k < |steps| && steps[k].enabled && steps[k].kind == kind
  }

  /** Number of enabled steps before position `k`: where step `k`, if enabled, stands among the kinds. */
  function Rank(steps: seq<Step>, k: nat): nat
    requires k <= |steps|
  {
    |EnabledKinds(steps[..k])|
  }

  lemma {:induction false} KindsSplit(steps: seq<Step>, k: nat)
    requires k <= |steps|
    ensures EnabledKinds(steps) == EnabledKinds(steps[..k]) + EnabledKinds(steps[k..])
    decreases k
  {
    if k == 0 {
      assert steps[..0] == [] && steps[0..] == steps;
    } else {
      KindsSplit(steps[1..], k - 1);
      assert steps[..k][1..] == steps[1..][..k - 1] && steps[k..] == steps[1..][k - 1..];
    }
  }

  /** An enabled step stands at its rank. */
  lemma EnabledStepRank(steps: seq<Step>, k: nat)
    requires k < |steps| && steps[k].enabled
    ensures Rank(steps, k) < |EnabledKinds(steps)| && EnabledKinds(steps)[Rank(steps, k)] == steps[k].kind
  {
    KindsSplit(steps, k);
    assert steps[k..][0] == steps[k];
  }

  lemma RankMonotone(steps: seq<Step>, j: nat, k: nat)
    requires j <= k <= |steps|
    ensures Rank(steps, j) <= Rank(steps, k)
  {
    KindsSplit(steps[..k], j);
    assert steps[..k][..j] == steps[..j];
  }

  /** Every position among the kinds belongs to an enabled step. */
  lemma {:induction false} StepOfRank(steps: seq<Step>, i: nat) returns (k: nat)
    requires i < |EnabledKinds(steps)|
    ensures k < |steps| && steps[k].enabled && Rank(steps, k) == i && steps[k].kind == EnabledKinds(steps)[i]
    decreases |steps|
  {
    var head := if steps[0].enabled then 1 else 0;
    if i < head {
      k := 0;
      assert steps[..0] == [];
    } else {
      var later := StepOfRank(steps[1..], i - head);
      k := later + 1;
      assert steps[..k] == [steps[0]] + steps[1..][..later];
    }
  }

  /** The step at which a kind occurs first. */
  lemma FirstStep(steps: seq<Step>, kind: Kind) returns (k: nat)
    requires kind in EnabledKinds(steps)
    ensures k < |steps| && steps[k].enabled && steps[k].kind == kind
    ensures Rank(steps, k) == First(EnabledKinds(steps), kind)
    ensures forall j :: 0 <= j < |steps| && steps[j].enabled && steps[j].kind == kind ==> k <= j
  {
    var kinds := EnabledKinds(steps);
    k := StepOfRank(steps, First(kinds, kind));
    forall j | 0 <= j < |steps| && steps[j].enabled && steps[j].kind == kind ensures k <= j {
      EnabledStepRank(steps, j);
      if j < k {
        EnabledStepRank(steps, k);
        RankMonotone(steps, j + 1, k);
        RankStep(steps, j);
      }
    }
  }

  lemma RankStep(steps: seq<Step>, j: nat)
    requires j < |steps| && steps[j].enabled
    ensures Rank(steps, j + 1) == Rank(steps, j) + 1
  {
    KindsSplit(steps[..j + 1], j);
    assert steps[..j + 1][..j] == steps[..j] && steps[..j + 1][j..] == [steps[j]];
  }

  lemma EnabledIsAmongKinds(steps: seq<Step>, kind: Kind)
    ensures Enabled(steps, kind) <==> kind in EnabledKinds(steps)
  {
    if Enabled(steps, kind) {
      var k :| 0 <= k < |steps| && steps[k].enabled && steps[k].kind == kind;
      EnabledStepRank(steps, k);
    }
    if kind in EnabledKinds(steps) {
      var k := FirstStep(steps, kind);
    }
  }

  /** A rule the validator does not complain about is respected by every run that stops at failures. */
  lemma OrderedIsRespected(steps: seq<Step>, rule: (Kind, Kind), o: Outside)
    requires Enabled(steps, rule.1) && !Misordered(EnabledKinds(steps), rule) && rule.0 != rule.1
    ensures Respects(RunAll(steps, true, o).outcomes, rule)
  {
    hide RunAll, EnabledKinds, Rank, First;
    var outcomes := RunAll(steps, true, o).outcomes;
    RunReports(steps, true, o);
    EnabledIsAmongKinds(steps, rule.1);
    var p := FirstStep(steps, rule.1);
    forall k: nat | Executed(outcomes, k) && outcomes[k].kind == rule.0
      ensures exists j :: 0 <= j < k && outcomes[j].kind == rule.1 && outcomes[j].status.Passed?
    {
      assert steps[k].enabled && steps[k].kind == rule.0;
      EnabledIsAmongKinds(steps, rule.0);
      var f := FirstStep(steps, rule.0);
      if f < p {
        RankStep(steps, f);
        RankMonotone(steps, f + 1, p);
      }
      assert p < f <= k;
      assert !FailsAt(outcomes, p);
      assert outcomes[p].kind == rule.1 && outcomes[p].status.Passed?;
    }
  }

  const UNDISTURBED := Outside((k: nat) => true, (k: nat) => false)

  /** A rule the validator complains about is violated by the run in which every handler passes. */
  lemma MisorderedIsViolated(steps: seq<Step>, rule: (Kind, Kind))
    requires Misordered(EnabledKinds(steps), rule)
    ensures !Respects(RunAll(steps, true, UNDISTURBED).outcomes, rule)
  {
    var outcomes := RunAll(steps, true, UNDISTURBED).outcomes;
    RunReports(steps, true, UNDISTURBED);
    UndisturbedRunsAll(ResetSteps(steps), 0, []);
    var f := FirstStep(steps, rule.0);
    var p := FirstStep(steps, rule.1);
    if p <= f {
      RankMonotone(steps, p, f);
    }
    assert Executed(outcomes, f) && outcomes[f].kind == rule.0;
    forall j | 0 <= j < f && outcomes[j].kind == rule.1 ensures !outcomes[j].status.Passed? {
    }
  }

  lemma {:induction false} UndisturbedRunsAll(steps: seq<Step>, k: nat, outcomes: seq<Outcome>)
    requires k == |outcomes| && k <= |steps|
    ensures |RunFrom(steps, k, true, UNDISTURBED, outcomes).outcomes| == |steps|
    decreases |steps| - k
  {
    if k < |steps| {
      var status := if steps[k].enabled then Passed else Skipped;
      UndisturbedRunsAll(steps[k := steps[k].(status := status)], k + 1,
                         outcomes + [Outcome(k, steps[k].kind, status)]);
    }
  }

  /**
   The validator reports no ordering problem if and only if every run with `stop_on_failure`, however its
   handlers end and whenever it is cancelled, respects every rule whose predecessor is enabled.
   */
  lemma ValidatedOrder(steps: seq<Step>, flash: FileChoice, security: FileChoice)
    ensures (forall p :: IsProblem(EnabledKinds(steps), flash, security, p) ==> !p.OutOfOrder?)
            <==> (forall o: Outside, rule :: rule in ORDER_RULES && Enabled(steps, rule.1) ==>
                    Respects(RunAll(steps, true, o).outcomes, rule))
  {
    hide RunAll, EnabledKinds, Respects;
    var kinds := EnabledKinds(steps);
    if forall p :: IsProblem(kinds, flash, security, p) ==> !p.OutOfOrder? {
      forall o: Outside, rule | rule in ORDER_RULES && Enabled(steps, rule.1)
        ensures Respects(RunAll(steps, true, o).outcomes, rule)
      {
        assert !IsProblem(kinds, flash, security, OutOfOrder(rule.0, rule.1));
        OrderedIsRespected(steps, rule, o);
      }
    } else {
      var p :| IsProblem(kinds, flash, security, p) && p.OutOfOrder?;
      var rule := (p.kind, p.predecessor);
      EnabledIsAmongKinds(steps, rule.1);
      MisorderedIsViolated(steps, rule);
      assert !Respects(RunAll(steps, true, UNDISTURBED).outcomes, rule);
    }
  }
}
