/** The semantic rules of a pipeline definition, and what a definition that breaks none is good for. */
module Pipeline {
  import opened Prelude

  datatype SourceKind = Db | Docs
  datatype Source = Source(kind: SourceKind, name: string)

  /** What the rules look at in a step. */
  datatype Step =
    | Where(name: string, source: string)
    | Semantic(name: string, source: string, queries: seq<string>)
    | Llm(name: string, source: string, input: Option<string>)

  datatype Mode = Context | Mass
  datatype Target = Editor | Nats | File

  datatype PipelineDef = PipelineDef(
    sources: seq<Source>, mode: Mode, embedding: Option<string>, steps: seq<Step>,
    target: Target, subject: Option<string>)

  datatype Problem =
    | MassNeedsSemantic | NatsNeedsSubject
    | SemanticOnDocs | SemanticUnknownSource | SourceNotPreceding | NeedsEmbedding | NeedsQuery
    | WhereNeedsDb | LlmUnknownSource
    | UnknownInput | InputIsItself | InputNotPreceding
    | DuplicateSource | DuplicateStep

  datatype Diagnostic = Diagnostic(problem: Problem, about: Option<string>)

  // ── Names ───────────────────────────────────────────────────────────────────

  predicate HasSource(def: PipelineDef, kind: SourceKind, name: string) {
    exists k | 0 <= k < |def.sources| :: def.sources[k] == Source(kind, name)
  }

  predicate IsSource(def: PipelineDef, name: string) {
    HasSource(def, Db, name) || HasSource(def, Docs, name)
  }

  /** Some step before `i` has this name. */
  predicate StepBefore(def: PipelineDef, i: nat, name: string)
    requires i <= |def.steps|
  {
    exists j | 0 <= j < i :: def.steps[j].name == name
  }

  /** Position of the first step with this name, or -1. */
  function FindIndex(steps: seq<Step>, name: string): (k: int)
    ensures k == -1 <==> forall j | 0 <= j < |steps| :: steps[j].name != name
    ensures k != -1 ==> 0 <= k < |steps| && steps[k].name == name && forall j | 0 <= j < k :: steps[j].name != name
  {
    if steps == [] then -1 else
    var n := |steps| - 1;
    var k := FindIndex(steps[..n], name);
    if k != -1 then k else if steps[n].name == name then n else -1
  }

  predicate Truthy(s: Option<string>) {
    s.Some? && s.value != ""
  }

  function SourceNames(def: PipelineDef): seq<string> {
    seq(|def.sources|, i requires 0 <= i < |def.sources| => def.sources[i].name)
  }

  function StepNames(def: PipelineDef): seq<string> {
    seq(|def.steps|, i requires 0 <= i < |def.steps| => def.steps[i].name)
  }

  predicate Distinct(names: seq<string>) {
    forall i, j | 0 <= i < j < |names| :: names[i] != names[j]
  }

  // ── A well-formed pipeline ──────────────────────────────────────────────────

  /** Everything step `i` draws from exists by the time it runs in list order. */
  predicate WellPlaced(def: PipelineDef, i: nat)
    requires i < |def.steps|
  {
    match def.steps[i]
    case Where(_, source) => HasSource(def, Db, source)
    case Semantic(_, source, queries) =>
      && !HasSource(def, Docs, source) && (HasSource(def, Db, source) || StepBefore(def, i, source))
      && Truthy(def.embedding) && queries != []
    case Llm(_, source, input) =>
      && (IsSource(def, source) || StepBefore(def, i, source))
      && (input.Some? ==> StepBefore(def, i, input.value))
  }

  predicate WellFormed(def: PipelineDef) {
    && (def.mode == Mass ==> exists i | 0 <= i < |def.steps| :: def.steps[i].Semantic?)
    && (def.target == Nats ==> Truthy(def.subject))
    && Distinct(SourceNames(def)) && Distinct(StepNames(def))
    && (forall i | 0 <= i < |def.steps| :: WellPlaced(def, i))
  }

  // ── The diagnostics ─────────────────────────────────────────────────────────

  function When(holds: bool, problem: Problem, about: Option<string>): seq<Diagnostic> {
    if holds then [Diagnostic(problem, about)] else []
  }

  function HeadDiags(def: PipelineDef): seq<Diagnostic> {
    When(def.mode == Mass && forall i | 0 <= i < |def.steps| :: !def.steps[i].Semantic?, MassNeedsSemantic, None)
    + When(def.target == Nats && !Truthy(def.subject), NatsNeedsSubject, None)
  }

  function SourceDiags(def: PipelineDef, i: nat, unknown: Problem): seq<Diagnostic>
    requires i < |def.steps|
  {
    var s := def.steps[i];
    var k := FindIndex(def.steps, s.source);
    When(k < 0, unknown, Some(s.name)) + When(k >= i, SourceNotPreceding, Some(s.name))
  }

  function InputDiags(def: PipelineDef, i: nat): seq<Diagnostic>
    requires i < |def.steps| && def.steps[i].Llm?
  {
    var s := def.steps[i];
    if s.input.None? then []
    else
      var k := FindIndex(def.steps, s.input.value);
      if k < 0 then [Diagnostic(UnknownInput, Some(s.name))]
      else if s.input.value == s.name then [Diagnostic(InputIsItself, Some(s.name))]
      else When(k >= i, InputNotPreceding, Some(s.name))
  }

  function StepDiags(def: PipelineDef, i: nat): seq<Diagnostic>
    requires i < |def.steps|
  {
    var s := def.steps[i];
    match s
    case Where(name, source) => When(!HasSource(def, Db, source), WhereNeedsDb, Some(name))
    case Semantic(name, source, queries) =>
      (if HasSource(def, Docs, source) then [Diagnostic(SemanticOnDocs, Some(name))]
       else if HasSource(def, Db, source) then []
       else SourceDiags(def, i, SemanticUnknownSource))
      + When(!Truthy(def.embedding), NeedsEmbedding, Some(name)) + When(queries == [], NeedsQuery, Some(name))
    case Llm(name, source, input) =>
      (if IsSource(def, source) then [] else SourceDiags(def, i, LlmUnknownSource)) + InputDiags(def, i)
  }

  /** Diagnostics of the first `n` steps. */
  function StepsDiags(def: PipelineDef, n: nat): seq<Diagnostic>
    requires n <= |def.steps|
  {
    if n == 0 then [] else StepsDiags(def, n - 1) + StepDiags(def, n - 1)
  }

  function DuplicateDiags(names: seq<string>, problem: Problem): seq<Diagnostic> {
    if names == [] then [] else
    var n := |names| - 1;
    DuplicateDiags(names[..n], problem) + When(names[n] in names[..n], problem, Some(names[n]))
  }

  function Diagnostics(def: PipelineDef): seq<Diagnostic> {
    HeadDiags(def) + StepsDiags(def, |def.steps|)
    + DuplicateDiags(SourceNames(def), DuplicateSource) + DuplicateDiags(StepNames(def), DuplicateStep)
  }

  // ── The validator ───────────────────────────────────────────────────────────

  method ValidatePipeline(def: PipelineDef) returns (diags: seq<Diagnostic>)
    ensures diags == Diagnostics(def)
    ensures diags == [] <==> WellFormed(def)
  {
    hide StepDiags, WellFormed, HeadDiags;
    diags := CheckHead(def);
    for i := 0 to |def.steps|
      invariant diags == HeadDiags(def) + StepsDiags(def, i)
    {
      var found := CheckStep(def, i);
      diags := diags + found;
    }
    var found := CheckDuplicates(SourceNames(def), DuplicateSource);
    diags := diags + found;
    found := CheckDuplicates(StepNames(def), DuplicateStep);
    diags := diags + found;
    NoDiagnosticsIffWellFormed(def);
  }

  method CheckHead(def: PipelineDef) returns (diags: seq<Diagnostic>)
    ensures diags == HeadDiags(def)
  {
    diags := [];
    var semantic := Count(def.steps);
    if def.mode == Mass && semantic == 0 {
      diags := diags + [Diagnostic(MassNeedsSemantic, None)];
    }
    if def.target == Nats && !Truthy(def.subject) {
      diags := diags + [Diagnostic(NatsNeedsSubject, None)];
    }
  }

  /** How many semantic steps there are. */
  method Count(steps: seq<Step>) returns (n: nat)
    ensures n == 0 <==> forall i | 0 <= i < |steps| :: !steps[i].Semantic?
  {
    n := 0;
    for i := 0 to |steps|
      invariant n == 0 <==> forall j | 0 <= j < i :: !steps[j].Semantic?
    {
      if steps[i].Semantic? {
        n := n + 1;
      }
    }
  }

  method CheckStep(def: PipelineDef, i: nat) returns (diags: seq<Diagnostic>)
    requires i < |def.steps|
    ensures diags == StepDiags(def, i)
  {
    hide HasSource, InputDiags, FindIndex;
    diags := [];
    var step := def.steps[i];
    var docs, db := HasSource(def, Docs, step.source), HasSource(def, Db, step.source);
    var srcIdx := FindIndex(def.steps, step.source);
    match step
    case Semantic(name, source, queries) =>
      if docs {
        diags := diags + [Diagnostic(SemanticOnDocs, Some(name))];
      } else if !db {
        if srcIdx < 0 {
          diags := diags + [Diagnostic(SemanticUnknownSource, Some(name))];
        } else if srcIdx >= i {
          diags := diags + [Diagnostic(SourceNotPreceding, Some(name))];
        }
      }
      if !Truthy(def.embedding) {
        diags := diags + [Diagnostic(NeedsEmbedding, Some(name))];
      }
      if |queries| == 0 {
        diags := diags + [Diagnostic(NeedsQuery, Some(name))];
      }
    case Where(name, source) =>
      if !db {
        diags := diags + [Diagnostic(WhereNeedsDb, Some(name))];
      }
    case Llm(name, source, input) =>
      if !(docs || db) {
        if srcIdx < 0 {
          diags := diags + [Diagnostic(LlmUnknownSource, Some(name))];
        } else if srcIdx >= i {
          diags := diags + [Diagnostic(SourceNotPreceding, Some(name))];
        }
      }
      var found := CheckInput(def, i);
      diags := diags + found;
  }

  method CheckInput(def: PipelineDef, i: nat) returns (diags: seq<Diagnostic>)
    requires i < |def.steps| && def.steps[i].Llm?
    ensures diags == InputDiags(def, i)
  {
    diags := [];
    var Llm(name, _, input) := def.steps[i];
    if input.Some? {
      var inputIndex := FindIndex(def.steps, input.value);
      if inputIndex < 0 {
        diags := diags + [Diagnostic(UnknownInput, Some(name))];
      } else if input.value == name {
        diags := diags + [Diagnostic(InputIsItself, Some(name))];
      } else if inputIndex >= i {
        diags := diags + [Diagnostic(InputNotPreceding, Some(name))];
      }
    }
  }

  method CheckDuplicates(names: seq<string>, problem: Problem) returns (diags: seq<Diagnostic>)
    ensures diags == DuplicateDiags(names, problem)
  {
    diags := [];
    var seen: set<string> := {};
    for i := 0 to |names|
      invariant diags == DuplicateDiags(names[..i], problem)
      invariant forall name :: name in seen <==> name in names[..i]
    {
      assert names[..i + 1][..i] == names[..i];
      if names[i] in seen {
        diags := diags + [Diagnostic(problem, Some(names[i]))];
      }
      seen := seen + {names[i]};
    }
    assert names[..|names|] == names;
  }

  // ── Soundness and completeness ──────────────────────────────────────────────

  lemma {:induction false} NoDuplicateDiags(names: seq<string>, problem: Problem)
    ensures DuplicateDiags(names, problem) == [] <==> Distinct(names)
  {
    if names == [] {
    } else {
      var n := |names| - 1;
      NoDuplicateDiags(names[..n], problem);
      hide Distinct;
      DistinctSplit(names);
    }
  }

  lemma DistinctSplit(names: seq<string>)
    requires names != []
    ensures var n := |names| - 1; Distinct(names) <==> Distinct(names[..n]) && names[n] !in names[..n]
  {
    var n := |names| - 1;
    if names[n] in names[..n] {
      var i :| 0 <= i < n && names[..n][i] == names[n];
      assert names[i] == names[n];
    }
    assert forall i | 0 <= i < n :: names[..n][i] == names[i];
  }

  lemma {:induction false} NoStepsDiags(def: PipelineDef, n: nat)
    requires n <= |def.steps|
    ensures StepsDiags(def, n) == [] <==> forall i | 0 <= i < n :: StepDiags(def, i) == []
  {
    hide StepDiags;
    if n == 0 {
    } else {
      NoStepsDiags(def, n - 1);
    }
  }

  lemma FoundBefore(def: PipelineDef, i: nat, name: string)
    requires i <= |def.steps|
    ensures 0 <= FindIndex(def.steps, name) < i <==> StepBefore(def, i, name)
  {
    var k := FindIndex(def.steps, name);
  }

  lemma NoStepDiags(def: PipelineDef, i: nat)
    requires i < |def.steps|
    requires Distinct(StepNames(def))
    ensures StepDiags(def, i) == [] <==> WellPlaced(def, i)
  {
    hide HasSource, FindIndex, Truthy;
    var s := def.steps[i];
    assert forall j | 0 <= j < |def.steps| :: StepNames(def)[j] == def.steps[j].name;
    FoundBefore(def, i, s.source);
    if s.Llm? && s.input.Some? {
      FoundBefore(def, i, s.input.value);
    }
    hide StepBefore;
  }

  /** The validator is silent exactly about well-formed pipelines. */
  lemma NoDiagnosticsIffWellFormed(def: PipelineDef)
    ensures Diagnostics(def) == [] <==> WellFormed(def)
  {
    hide StepDiags, WellPlaced, StepsDiags, DuplicateDiags, Distinct;
    NoDuplicateDiags(SourceNames(def), DuplicateSource);
    NoDuplicateDiags(StepNames(def), DuplicateStep);
    NoStepsDiags(def, |def.steps|);
    if Distinct(StepNames(def)) {
      forall i | 0 <= i < |def.steps| ensures StepDiags(def, i) == [] <==> WellPlaced(def, i) {
        NoStepDiags(def, i);
      }
    }
  }

  // ── Which problem is reported about which step ──────────────────────────────

  predicate StepNamed(def: PipelineDef, name: string) {
    exists j | 0 <= j < |def.steps| :: def.steps[j].name == name
  }

  /** What is wrong with step `i`. */
  predicate Wrong(def: PipelineDef, i: nat, problem: Problem)
    requires i < |def.steps|
  {
    var s := def.steps[i];
    match problem
    case SemanticOnDocs => s.Semantic? && HasSource(def, Docs, s.source)
    case SemanticUnknownSource => s.Semantic? && !IsSource(def, s.source) && !StepNamed(def, s.source)
    case LlmUnknownSource => s.Llm? && !IsSource(def, s.source) && !StepNamed(def, s.source)
    case SourceNotPreceding =>
      !s.Where? && !IsSource(def, s.source) && StepNamed(def, s.source) && !StepBefore(def, i, s.source)
    case NeedsEmbedding => s.Semantic? && (def.embedding == None || def.embedding == Some(""))
    case NeedsQuery => s.Semantic? && s.queries == []
    case WhereNeedsDb => s.Where? && !HasSource(def, Db, s.source)
    case UnknownInput => s.Llm? && s.input.Some? && !StepNamed(def, s.input.value)
    case InputIsItself => s.Llm? && s.input == Some(s.name)
    case InputNotPreceding =>
      && s.Llm? && s.input.Some? && s.input.value != s.name
      && StepNamed(def, s.input.value) && !StepBefore(def, i, s.input.value)
    case _ => false
  }

  predicate WrongStep(def: PipelineDef, i: nat, d: Diagnostic) {
    i < |def.steps| && d.about == Some(def.steps[i].name) && Wrong(def, i, d.problem)
  }

  predicate Twice(names: seq<string>, name: string) {
    multiset(names)[name] >= 2
  }

  predicate Reported(def: PipelineDef, d: Diagnostic) {
    match d.problem
    case MassNeedsSemantic =>
      d.about == None && def.mode == Mass && !exists i | 0 <= i < |def.steps| :: def.steps[i].Semantic?
    case NatsNeedsSubject =>
      d.about == None && def.target == Nats && (def.subject == None || def.subject == Some(""))
    case DuplicateSource => d.about.Some? && Twice(SourceNames(def), d.about.value)
    case DuplicateStep => d.about.Some? && Twice(StepNames(def), d.about.value)
    case _ => exists i | 0 <= i < |def.steps| :: WrongStep(def, i, d)
  }

  lemma NamedExactly(def: PipelineDef, name: string)
    ensures FindIndex(def.steps, name) >= 0 <==> StepNamed(def, name)
  {
    var k := FindIndex(def.steps, name);
  }

  lemma SourceReported(def: PipelineDef, i: nat, unknown: Problem, problem: Problem)
    requires i < |def.steps| && unknown != SourceNotPreceding
    ensures var s := def.steps[i];
            Diagnostic(problem, Some(s.name)) in SourceDiags(def, i, unknown) <==>
            || (problem == unknown && !StepNamed(def, s.source))
            || (problem == SourceNotPreceding && StepNamed(def, s.source) && !StepBefore(def, i, s.source))
  {
    NamedExactly(def, def.steps[i].source);
    FoundBefore(def, i, def.steps[i].source);
    hide FindIndex, StepNamed, StepBefore;
  }

  lemma InputReported(def: PipelineDef, i: nat, problem: Problem)
    requires i < |def.steps| && def.steps[i].Llm?
    ensures var s := def.steps[i];
            Diagnostic(problem, Some(s.name)) in InputDiags(def, i) <==>
            && s.input.Some?
            && match problem
               case UnknownInput => !StepNamed(def, s.input.value)
               case InputIsItself => s.input.value == s.name
               case InputNotPreceding =>
                 s.input.value != s.name && StepNamed(def, s.input.value) && !StepBefore(def, i, s.input.value)
               case _ => false
  {
    var s := def.steps[i];
    if s.input.Some? {
      NamedExactly(def, s.input.value);
      FoundBefore(def, i, s.input.value);
      assert s.input.value == s.name ==> StepNamed(def, s.name);
    }
    hide FindIndex, StepNamed, StepBefore;
  }

  /** A step is told exactly what is wrong with it. */
  lemma StepReported(def: PipelineDef, i: nat, d: Diagnostic)
    requires i < |def.steps|
    ensures d in StepDiags(def, i) <==> WrongStep(def, i, d)
  {
    var s := def.steps[i];
    SourceReported(def, i, SemanticUnknownSource, d.problem);
    SourceReported(def, i, LlmUnknownSource, d.problem);
    AboutStep(def, i, d);
    if s.Llm? {
      InputReported(def, i, d.problem);
    }
    hide SourceDiags, InputDiags, HasSource, StepNamed, StepBefore;
  }

  lemma AboutStep(def: PipelineDef, i: nat, d: Diagnostic)
    requires i < |def.steps|
    ensures d in StepDiags(def, i) ==> d.about == Some(def.steps[i].name)
  {
    hide FindIndex, HasSource, StepBefore, Truthy;
  }

  lemma {:induction false} StepsReported(def: PipelineDef, n: nat, d: Diagnostic)
    requires n <= |def.steps|
    ensures d in StepsDiags(def, n) <==> exists i | 0 <= i < n :: WrongStep(def, i, d)
  {
    hide StepDiags, WrongStep;
    if n == 0 {
    } else {
      StepsReported(def, n - 1, d);
      StepReported(def, n - 1, d);
    }
  }

  function Repeats(names: seq<string>, problem: Problem, name: string): nat {
    multiset(DuplicateDiags(names, problem))[Diagnostic(problem, Some(name))]
  }

  lemma RepeatsNext(names: seq<string>, next: string, problem: Problem, name: string)
    ensures Repeats(names + [next], problem, name)
            == Repeats(names, problem, name) + if next == name && name in names then 1 else 0
  {
    assert (names + [next])[..|names|] == names;
    var found := When(next in names, problem, Some(next));
    assert DuplicateDiags(names + [next], problem) == DuplicateDiags(names, problem) + found;
    hide DuplicateDiags;
    assert multiset(found) == if next in names then multiset{Diagnostic(problem, Some(next))} else multiset{};
  }

  /** A name is reported once for every time it comes up again. */
  lemma {:induction false} RepeatsCounted(names: seq<string>, problem: Problem, name: string)
    ensures Repeats(names, problem, name) == if name in names then multiset(names)[name] - 1 else 0
  {
    if names == [] {
    } else {
      var n := |names| - 1;
      RepeatsCounted(names[..n], problem, name);
      RepeatsNext(names[..n], names[n], problem, name);
      assert names == names[..n] + [names[n]];
      hide Repeats;
    }
  }

  lemma {:induction false} AboutRepeats(names: seq<string>, problem: Problem)
    ensures forall d <- DuplicateDiags(names, problem) :: d.problem == problem && d.about.Some?
  {
    if names == [] {
    } else {
      AboutRepeats(names[..|names| - 1], problem);
    }
  }

  lemma RepeatsReported(names: seq<string>, problem: Problem, d: Diagnostic)
    ensures d in DuplicateDiags(names, problem) <==>
            d.problem == problem && d.about.Some? && Twice(names, d.about.value)
  {
    hide DuplicateDiags;
    AboutRepeats(names, problem);
    if d.about.Some? && d.problem == problem {
      RepeatsCounted(names, problem, d.about.value);
    }
  }

  /** A problem is reported exactly where it is, and under the name of the step or source it is about. */
  lemma DiagnosticsExactly(def: PipelineDef, d: Diagnostic)
    ensures d in Diagnostics(def) <==> Reported(def, d)
  {
    hide StepsDiags, DuplicateDiags, WrongStep, Twice;
    HeadReported(def, d);
    StepsReported(def, |def.steps|, d);
    RepeatsReported(SourceNames(def), DuplicateSource, d);
    RepeatsReported(StepNames(def), DuplicateStep, d);
    if d.problem in {MassNeedsSemantic, NatsNeedsSubject, DuplicateSource, DuplicateStep} {
      NoWrongHead(def, d);
    }
    hide HeadDiags;
  }

  lemma HeadReported(def: PipelineDef, d: Diagnostic)
    ensures d in HeadDiags(def) <==> d.problem in {MassNeedsSemantic, NatsNeedsSubject} && Reported(def, d)
  {
  }

  /** The problems of a whole definition are not those of a step. */
  lemma NoWrongHead(def: PipelineDef, d: Diagnostic)
    requires d.problem in {MassNeedsSemantic, NatsNeedsSubject, DuplicateSource, DuplicateStep}
    ensures !exists i | 0 <= i < |def.steps| :: WrongStep(def, i, d)
  {
  }

  // ── What a well-formed pipeline is good for ─────────────────────────────────

  /** Names step `i` needs the output of: its source unless a declared source has that name, and its input. */
  predicate Needs(def: PipelineDef, i: nat, name: string)
    requires i < |def.steps|
  {
    || (name == def.steps[i].source && !IsSource(def, name))
    || (def.steps[i].Llm? && def.steps[i].input == Some(name))
  }

  /** Step `i` draws on the output of step `j`. */
  predicate DrawsOn(def: PipelineDef, i: nat, j: nat) {
    i < |def.steps| && j < |def.steps| && Needs(def, i, def.steps[j].name)
  }

  /** Running the first `n` steps in list order: the names of the finished steps, or none when a step
      found something it needs missing. */
  function Finished(def: PipelineDef, n: nat): Option<set<string>>
    requires n <= |def.steps|
  {
    if n == 0 then Some({}) else
    match Finished(def, n - 1)
    case None => None
    case Some(done) =>
      if FoundAll(def, n - 1, done) then Some(done + {def.steps[n - 1].name}) else None
  }

  /** What step `i` looks up is there. */
  predicate FoundAll(def: PipelineDef, i: nat, done: set<string>)
    requires i < |def.steps|
  {
    var s := def.steps[i];
    && (IsSource(def, s.source) || s.source in done)
    && (s.Llm? && s.input.Some? ==> s.input.value in done)
  }

  lemma FoundAllExactly(def: PipelineDef, i: nat, done: set<string>)
    requires i < |def.steps| && forall name :: name in done <==> StepBefore(def, i, name)
    ensures FoundAll(def, i, done) <==> ServedInOrder(def, i)
  {
    hide IsSource, StepBefore;
    var s := def.steps[i];
    assert !IsSource(def, s.source) ==> Needs(def, i, s.source);
    assert s.Llm? && s.input.Some? ==> Needs(def, i, s.input.value);
  }

  /** Whatever step `i` needs is the name of an earlier step. */
  ghost predicate ServedInOrder(def: PipelineDef, i: nat)
    requires i < |def.steps|
  {
    forall name | Needs(def, i, name) :: StepBefore(def, i, name)
  }

  /** Running in list order gets through exactly when every need is met by an earlier step. */
  lemma {:induction false} FinishedExactly(def: PipelineDef, n: nat)
    requires n <= |def.steps|
    ensures Finished(def, n).Some? <==> forall i | 0 <= i < n :: ServedInOrder(def, i)
    ensures Finished(def, n).Some? ==> forall name :: name in Finished(def, n).value <==> StepBefore(def, n, name)
  {
    hide FoundAll, ServedInOrder;
    if n == 0 {
    } else {
      FinishedExactly(def, n - 1);
      if Finished(def, n - 1).Some? {
        StepBeforeNext(def, n - 1);
        FoundAllExactly(def, n - 1, Finished(def, n - 1).value);
      }
    }
  }

  lemma StepBeforeNext(def: PipelineDef, n: nat)
    requires n < |def.steps|
    ensures forall name :: StepBefore(def, n + 1, name) <==> StepBefore(def, n, name) || name == def.steps[n].name
  {
    assert StepBefore(def, n + 1, def.steps[n].name);
  }

  /** A well-formed pipeline runs to its end in list order. */
  lemma WellFormedRuns(def: PipelineDef)
    requires WellFormed(def)
    ensures Finished(def, |def.steps|).Some?
    ensures forall i | 0 <= i < |def.steps| :: def.steps[i].name in Finished(def, |def.steps|).value
  {
    forall i | 0 <= i < |def.steps| ensures ServedInOrder(def, i) && StepBefore(def, |def.steps|, def.steps[i].name) {
      NeedsComeBefore(def, i);
    }
    hide WellFormed, Finished, ServedInOrder, StepBefore;
    FinishedExactly(def, |def.steps|);
  }

  lemma NeedsComeBefore(def: PipelineDef, i: nat)
    requires WellFormed(def) && i < |def.steps|
    ensures forall name | Needs(def, i, name) :: StepBefore(def, i, name)
  {
    hide HasSource, StepBefore;
    assert WellPlaced(def, i);
  }

  /** Every step draws only on earlier steps. */
  lemma DrawsBackwards(def: PipelineDef, i: nat, j: nat)
    requires WellFormed(def) && DrawsOn(def, i, j)
    ensures j < i
  {
    NeedsComeBefore(def, i);
    hide Needs, WellPlaced;
    var k :| 0 <= k < i && def.steps[k].name == def.steps[j].name;
    assert StepNames(def)[k] == StepNames(def)[j];
  }

  /** Following what steps draw on never leads back to the start. */
  lemma {:induction false} Acyclic(def: PipelineDef, path: seq<nat>)
    requires WellFormed(def) && |path| >= 2
    requires forall k | 0 <= k < |path| - 1 :: DrawsOn(def, path[k], path[k + 1])
    ensures path[|path| - 1] < path[0]
  {
    hide WellFormed, DrawsOn;
    DrawsBackwards(def, path[0], path[1]);
    if |path| <= 2 {
    } else {
      Acyclic(def, path[1..]);
    }
  }
}
