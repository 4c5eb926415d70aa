/**
 * The plan-building part of the recipe data source's Read
 * (internal/provider/data_recipe.go): every action definition is interpreted,
 * every definition error is collected, and only a fully valid list becomes a
 * plan, optionally followed by one screenshot command. Running the plan, and
 * everything Read does after it, is outside this module.
 */
module Recipe {
  import opened Actions

  /** The recipe's configuration; an unset string attribute reads as "". */
  datatype RecipeConfig = RecipeConfig(
    actions: seq<seq<string>>,
    screenshotFilename: string,
    screenshotSelector: string)

  /** The error diagnostics Read adds before it would run anything. */
  datatype Diagnostic =
    | WrongActionDefinition(error: BuildError)
    | ScreenshotDirectory

  /**
   * How planning ends: a Go panic while building definition `at`; an abort
   * with error diagnostics, before any browser context exists; or the plan
   * that Read hands to the browser together with the recipe id and the
   * values map.
   */
  datatype ReadOutcome =
    | Crashed(at: nat, panic: Panic)
    | Aborted(diagnostics: seq<Diagnostic>)
    | Planned(id: string, commands: seq<Command>, values: map<string, SlotId>)

  const PlaceholderId: string := "placeholder"

  /** The state of Read's loop: the commands built, the values map, the errors so far. */
  datatype LoopState = LoopState(commands: seq<Command>, values: map<string, SlotId>, diagnostics: seq<Diagnostic>)

  datatype Progress = Crash(at: nat, panic: Panic) | Running(state: LoopState)

  /**
   * Every definition interpreted on its own; the fresh slot definition `i`
   * may allocate is identified by `i`, so no two definitions share a slot.
   */
  function Outcomes(defs: seq<seq<string>>, parseDuration: string -> Option<Duration>,
                    variant: Variant): (rs: seq<BuildResult>)
    ensures |rs| == |defs|
  {
    seq(|defs|, i requires 0 <= i < |defs| => BuildAction(defs[i], i, parseDuration, variant))
  }

  /** One turn of the loop: a panic ends it, an error is recorded, an action is registered. */
  function Step(st: LoopState, r: BuildResult, at: nat): Progress {
    match r
    case Panicked(p) => Crash(at, p)
    case Failed(e) => Running(st.(diagnostics := st.diagnostics + [WrongActionDefinition(e)]))
    case Built(a) => Running(st.(commands := st.commands + [a.command], values := a.Registered(st.values)))
  }

  /** The loop after the first `n` interpreted definitions. */
  function Loop(rs: seq<BuildResult>, n: nat): Progress
    requires n <= |rs|
    decreases n
  {
    if n == 0 then Running(LoopState([], map[], []))
    else
      match Loop(rs, n - 1)
      case Crash(at, p) => Crash(at, p)
      case Running(st) => Step(st, rs[n - 1], n - 1)
  }

  /** The screenshot command: of the selected element when a selector is set, else of the page. */
  function ScreenshotCommand(selector: string): Command {
    if selector != "" then Screenshot(selector, [NodeVisible]) else CaptureScreenshot
  }

  /**
   * What Read decides once the loop is over: a panic propagates, any
   * diagnostic aborts, and a requested screenshot needs its directory.
   * `dirCreated` is whether creating that directory succeeded.
   */
  function Conclude(progress: Progress, config: RecipeConfig, dirCreated: bool): ReadOutcome {
    match progress
    case Crash(at, p) => Crashed(at, p)
    case Running(st) =>
      if st.diagnostics != [] then Aborted(st.diagnostics)
      else if config.screenshotFilename == "" then Planned(PlaceholderId, st.commands, st.values)
      else if !dirCreated then Aborted([ScreenshotDirectory])
      else Planned(PlaceholderId, st.commands + [ScreenshotCommand(config.screenshotSelector)], st.values)
  }

  /** What Read decides before running anything. */
  function Planning(config: RecipeConfig, parseDuration: string -> Option<Duration>,
                    dirCreated: bool, variant: Variant): ReadOutcome
  {
    Conclude(Loop(Outcomes(config.actions, parseDuration, variant), |config.actions|), config, dirCreated)
  }

  /**
   * `rs` are the outcomes of interpreting `defs`, each with its own index as
   * fresh slot. The element-wise fact is triggered only by an interpretation
   * term, so proofs about the loop can treat `rs` as plain results.
   */
  ghost predicate InterpretedAs(defs: seq<seq<string>>, parseDuration: string -> Option<Duration>,
                                variant: Variant, rs: seq<BuildResult>)
  {
    && |rs| == |defs|
    && forall k {:trigger BuildAction(defs[k], k, parseDuration, variant)} :: 0 <= k < |defs| ==>
         rs[k] == BuildAction(defs[k], k, parseDuration, variant)
  }

  /** Outcomes is such an interpretation. */
  lemma OutcomesInterpreted(defs: seq<seq<string>>, parseDuration: string -> Option<Duration>, variant: Variant)
    ensures InterpretedAs(defs, parseDuration, variant, Outcomes(defs, parseDuration, variant))
  {
  }

  /** A definition that, once built, publishes its output under `name`. */
  predicate Publishes(actionArgs: seq<string>, name: string) {
    |actionArgs| == 3 && actionArgs[0] in {"value", "text"} && actionArgs[2] == name && name != ""
  }

  /** An interpreted definition exports its slot under `name` exactly when it publishes `name`. */
  lemma ExportsIffPublishes(defs: seq<seq<string>>, parseDuration: string -> Option<Duration>, variant: Variant,
                            rs: seq<BuildResult>, i: nat, name: string)
    requires InterpretedAs(defs, parseDuration, variant, rs)
    requires i < |defs|
    ensures ExportsAt(rs, i, name) <==> Publishes(defs[i], name)
  {
    assert rs[i] == BuildAction(defs[i], i, parseDuration, variant);
  }

  /** Interpretation gives every value and text action its definition's index as slot. */
  lemma InterpretedSlots(defs: seq<seq<string>>, parseDuration: string -> Option<Duration>, variant: Variant,
                         rs: seq<BuildResult>)
    requires InterpretedAs(defs, parseDuration, variant, rs)
    ensures SlotsAreIndices(rs)
  {
    forall i | 0 <= i < |rs| && rs[i].Built? && rs[i].action.output.Some?
      ensures rs[i].action.output.value == i
      ensures rs[i].action.command.Value? || rs[i].action.command.TextContent?
      ensures rs[i].action.command.slot == i
    {
      assert rs[i] == BuildAction(defs[i], i, parseDuration, variant);
    }
  }

  /** Result `i` is an action that publishes its slot under `name`. */
  predicate ExportsAt(rs: seq<BuildResult>, i: int, name: string) {
    0 <= i < |rs| && rs[i].Built? && rs[i].action.Exports() && rs[i].action.valueName == name
  }

  /** The indices, in increasing order, of the failures among the first `n` results. */
  function FailingIndices(rs: seq<BuildResult>, n: nat): (idx: seq<nat>)
    requires n <= |rs|
    ensures forall j :: 0 <= j < |idx| ==> idx[j] < n && rs[idx[j]].Failed?
    ensures forall i :: 0 <= i < n && rs[i].Failed? ==> i in idx
    ensures forall j, j' :: 0 <= j < j' < |idx| ==> idx[j] < idx[j']
    decreases n
  {
    if n == 0 then []
    else FailingIndices(rs, n - 1) + (if rs[n - 1].Failed? then [n - 1] else [])
  }

  /** Once the loop has crashed, later results change nothing. */
  lemma {:induction false} LoopCrashPersists(rs: seq<BuildResult>, m: nat, n: nat)
    requires m <= n <= |rs|
    requires Loop(rs, m).Crash?
    ensures Loop(rs, n) == Loop(rs, m)
    decreases n
  {
    if n > m {
      LoopCrashPersists(rs, m, n - 1);
    }
  }

  /** The loop crashes exactly at the first result that is a panic. */
  lemma {:induction false} LoopCrash(rs: seq<BuildResult>, n: nat)
    requires n <= |rs|
    ensures Loop(rs, n).Running? <==> forall i :: 0 <= i < n ==> !rs[i].Panicked?
    ensures Loop(rs, n).Crash? ==>
      && Loop(rs, n).at < n
      && rs[Loop(rs, n).at] == Panicked(Loop(rs, n).panic)
      && forall i :: 0 <= i < Loop(rs, n).at ==> !rs[i].Panicked?
    decreases n
  {
    if n > 0 {
      LoopCrash(rs, n - 1);
    }
  }

  /** Each failure adds exactly one diagnostic, in definition order. */
  lemma {:induction false} LoopDiagnostics(rs: seq<BuildResult>, n: nat)
    requires n <= |rs|
    requires Loop(rs, n).Running?
    ensures var ds, idx := Loop(rs, n).state.diagnostics, FailingIndices(rs, n);
      && |ds| == |idx|
      && forall j :: 0 <= j < |idx| ==> ds[j] == WrongActionDefinition(rs[idx[j]].error)
    decreases n
  {
    if n > 0 {
      var prev := Loop(rs, n - 1);
      assert prev.Running?;
      LoopDiagnostics(rs, n - 1);
      var ds, ds' := prev.state.diagnostics, Loop(rs, n).state.diagnostics;
      var idx, idx' := FailingIndices(rs, n - 1), FailingIndices(rs, n);
      if rs[n - 1].Failed? {
        assert ds' == ds + [WrongActionDefinition(rs[n - 1].error)];
        assert idx' == idx + [n - 1];
      } else {
        assert ds' == ds;
        assert idx' == idx;
      }
    }
  }

  /** When every result is an action, the loop's commands are theirs, one each, in order. */
  lemma {:induction false} LoopCommands(rs: seq<BuildResult>, n: nat)
    requires n <= |rs|
    requires forall i :: 0 <= i < n ==> rs[i].Built?
    ensures Loop(rs, n).Running?
    ensures |Loop(rs, n).state.commands| == n
    ensures forall i :: 0 <= i < n ==> Loop(rs, n).state.commands[i] == rs[i].action.command
    decreases n
  {
    if n > 0 {
      LoopCommands(rs, n - 1);
    }
  }

  /**
   * A loop that has not crashed records only definition errors, and none
   * exactly when every result so far is an action.
   */
  lemma {:induction false} LoopClean(rs: seq<BuildResult>, n: nat)
    requires n <= |rs|
    requires Loop(rs, n).Running?
    ensures forall d :: d in Loop(rs, n).state.diagnostics ==> d.WrongActionDefinition?
    ensures Loop(rs, n).state.diagnostics == [] <==> forall i :: 0 <= i < n ==> rs[i].Built?
    decreases n
  {
    if n > 0 {
      assert Loop(rs, n - 1).Running?;
      LoopClean(rs, n - 1);
    }
  }

  /**
   * `values` is the values map after the first `n` results: it binds each
   * name to the last of them that publishes it, and misses no published name.
   */
  ghost predicate ValuesAfter(rs: seq<BuildResult>, n: nat, values: map<string, SlotId>) {
    && (forall name :: name in values ==>
          && values[name] < n
          && ExportsAt(rs, values[name], name)
          && forall j :: values[name] < j < n ==> !ExportsAt(rs, j, name))
    && (forall i, name :: 0 <= i < n && ExportsAt(rs, i, name) ==> name in values)
  }

  /**
   * Every output slot among the results is identified by its result's index,
   * and is the slot that result's value or text command writes into.
   */
  predicate SlotsAreIndices(rs: seq<BuildResult>) {
    forall i :: 0 <= i < |rs| && rs[i].Built? && rs[i].action.output.Some? ==>
      && rs[i].action.output.value == i
      && (rs[i].action.command.Value? || rs[i].action.command.TextContent?)
      && rs[i].action.command.slot == i
  }

  /** The values map holds exactly the published names, each bound to its last publisher. */
  lemma {:induction false} LoopValues(rs: seq<BuildResult>, n: nat)
    requires n <= |rs|
    requires SlotsAreIndices(rs)
    requires Loop(rs, n).Running?
    ensures ValuesAfter(rs, n, Loop(rs, n).state.values)
    decreases n
  {
    if n > 0 {
      var prev := Loop(rs, n - 1);
      assert prev.Running?;
      LoopValues(rs, n - 1);
      var values, values' := prev.state.values, Loop(rs, n).state.values;
      if rs[n - 1].Built? && rs[n - 1].action.Exports() {
        var a := rs[n - 1].action;
        assert ExportsAt(rs, n - 1, a.valueName);
        assert values' == a.Registered(values);
        forall name | name in values'
          ensures values'[name] < n && ExportsAt(rs, values'[name], name)
          ensures forall j :: values'[name] < j < n ==> !ExportsAt(rs, j, name)
        {
          if name != a.valueName {
            assert name in values;
            assert values'[name] == values[name];
            assert !ExportsAt(rs, n - 1, name);
          }
        }
      } else {
        assert values' == values;
      }
    }
  }

  /** The results interpreted in order crash exactly at the first panic. */
  lemma ConcludeCrashes(rs: seq<BuildResult>, config: RecipeConfig, dirCreated: bool)
    ensures var out := Conclude(Loop(rs, |rs|), config, dirCreated);
      && (out.Crashed? <==> exists i :: 0 <= i < |rs| && rs[i].Panicked?)
      && (out.Crashed? ==>
            && out.at < |rs|
            && rs[out.at] == Panicked(out.panic)
            && forall i :: 0 <= i < out.at ==> !rs[i].Panicked?)
  {
    LoopCrash(rs, |rs|);
  }

  /** A plan exists exactly when every result is an action and the screenshot directory is there. */
  lemma ConcludeAllOrNothing(rs: seq<BuildResult>, config: RecipeConfig, dirCreated: bool)
    ensures var out := Conclude(Loop(rs, |rs|), config, dirCreated);
      out.Planned? <==>
        (forall i :: 0 <= i < |rs| ==> rs[i].Built?) && (config.screenshotFilename != "" ==> dirCreated)
    ensures var out := Conclude(Loop(rs, |rs|), config, dirCreated);
      out == Aborted([ScreenshotDirectory]) <==>
        (forall i :: 0 <= i < |rs| ==> rs[i].Built?) && config.screenshotFilename != "" && !dirCreated
  {
    var n := |rs|;
    var allBuilt := forall i :: 0 <= i < n ==> rs[i].Built?;
    LoopCrash(rs, n);
    match Loop(rs, n)
    case Crash(_, _) =>
      assert !allBuilt;
    case Running(st) =>
      LoopClean(rs, n);
      if st.diagnostics != [] {
        assert st.diagnostics[0].WrongActionDefinition?;
      }
  }

  /** Short of a panic, the failing results abort with one diagnostic each, in order. */
  lemma ConcludeFailures(rs: seq<BuildResult>, config: RecipeConfig, dirCreated: bool)
    requires forall i :: 0 <= i < |rs| ==> !rs[i].Panicked?
    requires exists i :: 0 <= i < |rs| && rs[i].Failed?
    ensures var out, idx := Conclude(Loop(rs, |rs|), config, dirCreated), FailingIndices(rs, |rs|);
      && out.Aborted?
      && |out.diagnostics| == |idx| > 0
      && forall j :: 0 <= j < |idx| ==> out.diagnostics[j] == WrongActionDefinition(rs[idx[j]].error)
  {
    var n := |rs|;
    LoopCrash(rs, n);
    LoopDiagnostics(rs, n);
    var i :| 0 <= i < n && rs[i].Failed?;
    assert i in FailingIndices(rs, n);
  }

  /** A plan's commands are the results' commands, then the screenshot command if one is asked for. */
  lemma ConcludeCommands(rs: seq<BuildResult>, config: RecipeConfig, dirCreated: bool)
    requires Conclude(Loop(rs, |rs|), config, dirCreated).Planned?
    ensures var out := Conclude(Loop(rs, |rs|), config, dirCreated);
      && out.id == PlaceholderId
      && |out.commands| == |rs| + (if config.screenshotFilename != "" then 1 else 0)
      && (forall i :: 0 <= i < |rs| ==> rs[i].Built? && out.commands[i] == rs[i].action.command)
      && (config.screenshotFilename != "" ==> out.commands[|rs|] == ScreenshotCommand(config.screenshotSelector))
  {
    ConcludeAllOrNothing(rs, config, dirCreated);
    LoopCommands(rs, |rs|);
  }

  /**
   * A plan's values map binds exactly the published names, each to the slot
   * of its last publisher, which that publisher's command writes into.
   */
  lemma ConcludeValues(rs: seq<BuildResult>, config: RecipeConfig, dirCreated: bool)
    requires SlotsAreIndices(rs)
    requires Conclude(Loop(rs, |rs|), config, dirCreated).Planned?
    ensures var out := Conclude(Loop(rs, |rs|), config, dirCreated);
      && |rs| <= |out.commands|
      && (forall name :: name in out.values <==> exists i :: 0 <= i < |rs| && ExportsAt(rs, i, name))
      && (forall name :: name in out.values ==>
            && ExportsAt(rs, out.values[name], name)
            && (forall j :: out.values[name] < j < |rs| ==> !ExportsAt(rs, j, name))
            && (out.commands[out.values[name]].Value? || out.commands[out.values[name]].TextContent?)
            && out.commands[out.values[name]].slot == out.values[name])
  {
    ConcludeCommands(rs, config, dirCreated);
    LoopValues(rs, |rs|);
  }

  /** Planning crashes exactly when some definition panics, and then at the first one. */
  lemma PlanningCrashes(config: RecipeConfig, parseDuration: string -> Option<Duration>,
                        dirCreated: bool, variant: Variant)
    ensures var out, defs := Planning(config, parseDuration, dirCreated, variant), config.actions;
      && (out.Crashed? <==> exists i :: 0 <= i < |defs| && BuildAction(defs[i], i, parseDuration, variant).Panicked?)
      && (out.Crashed? ==>
            && out.at < |defs|
            && BuildAction(defs[out.at], out.at, parseDuration, variant) == Panicked(out.panic)
            && forall i :: 0 <= i < out.at ==> !BuildAction(defs[i], i, parseDuration, variant).Panicked?)
  {
    var rs := Outcomes(config.actions, parseDuration, variant);
    OutcomesInterpreted(config.actions, parseDuration, variant);
    ConcludeCrashes(rs, config, dirCreated);
  }

  /**
   * All or nothing: a plan exists exactly when every definition builds and the
   * screenshot directory, when one is asked for, was created; if every
   * definition builds and only the directory is missing, that alone is reported.
   */
  lemma PlanningAllOrNothing(config: RecipeConfig, parseDuration: string -> Option<Duration>,
                             dirCreated: bool, variant: Variant)
    ensures var out, defs := Planning(config, parseDuration, dirCreated, variant), config.actions;
      out.Planned? <==>
        && (forall i :: 0 <= i < |defs| ==> BuildAction(defs[i], i, parseDuration, variant).Built?)
        && (config.screenshotFilename != "" ==> dirCreated)
    ensures var out, defs := Planning(config, parseDuration, dirCreated, variant), config.actions;
      out == Aborted([ScreenshotDirectory]) <==>
        && (forall i :: 0 <= i < |defs| ==> BuildAction(defs[i], i, parseDuration, variant).Built?)
        && config.screenshotFilename != "" && !dirCreated
  {
    var rs := Outcomes(config.actions, parseDuration, variant);
    OutcomesInterpreted(config.actions, parseDuration, variant);
    ConcludeAllOrNothing(rs, config, dirCreated);
  }

  /**
   * Short of a panic, any failing definition aborts planning with one
   * diagnostic per failing definition, in definition order.
   */
  lemma PlanningReportsEveryFailure(config: RecipeConfig, parseDuration: string -> Option<Duration>,
                                    dirCreated: bool, variant: Variant)
    requires forall i :: 0 <= i < |config.actions| ==> !BuildAction(config.actions[i], i, parseDuration, variant).Panicked?
    requires exists i :: 0 <= i < |config.actions| && BuildAction(config.actions[i], i, parseDuration, variant).Failed?
    ensures var out, defs := Planning(config, parseDuration, dirCreated, variant), config.actions;
      var idx := FailingIndices(Outcomes(defs, parseDuration, variant), |defs|);
      && out.Aborted?
      && |out.diagnostics| == |idx| > 0
      && forall j :: 0 <= j < |idx| ==>
           out.diagnostics[j] == WrongActionDefinition(BuildAction(defs[idx[j]], idx[j], parseDuration, variant).error)
  {
    var rs := Outcomes(config.actions, parseDuration, variant);
    OutcomesInterpreted(config.actions, parseDuration, variant);
    ConcludeFailures(rs, config, dirCreated);
  }

  /**
   * A plan carries the placeholder id and one command per definition, in
   * definition order, followed by one screenshot command exactly when a
   * screenshot file is asked for: of the selected element when a selector is
   * set, else of the whole page.
   */
  lemma PlanningCommands(config: RecipeConfig, parseDuration: string -> Option<Duration>,
                         dirCreated: bool, variant: Variant)
    requires Planning(config, parseDuration, dirCreated, variant).Planned?
    ensures var out, defs := Planning(config, parseDuration, dirCreated, variant), config.actions;
      && out.id == "placeholder"
      && |out.commands| == |defs| + (if config.screenshotFilename != "" then 1 else 0)
      && (forall i :: 0 <= i < |defs| ==>
            && BuildAction(defs[i], i, parseDuration, variant).Built?
            && out.commands[i] == BuildAction(defs[i], i, parseDuration, variant).action.command)
      && (config.screenshotFilename != "" ==>
            out.commands[|defs|] ==
              if config.screenshotSelector != "" then Screenshot(config.screenshotSelector, [NodeVisible])
              else CaptureScreenshot)
  {
    var rs := Outcomes(config.actions, parseDuration, variant);
    OutcomesInterpreted(config.actions, parseDuration, variant);
    ConcludeCommands(rs, config, dirCreated);
  }

  /**
   * The values map of a plan holds exactly the names that value and text
   * definitions publish. Each is bound to the slot of the last definition
   * publishing it, which is the very slot that definition's command writes
   * into; distinct names never share a slot.
   */
  lemma PlanningValues(config: RecipeConfig, parseDuration: string -> Option<Duration>,
                       dirCreated: bool, variant: Variant)
    requires Planning(config, parseDuration, dirCreated, variant).Planned?
    ensures var out, defs := Planning(config, parseDuration, dirCreated, variant), config.actions;
      && (forall name :: name in out.values <==> exists i :: 0 <= i < |defs| && Publishes(defs[i], name))
      && |defs| <= |out.commands|
      && (forall name :: name in out.values ==>
            && out.values[name] < |defs|
            && Publishes(defs[out.values[name]], name)
            && (forall j :: out.values[name] < j < |defs| ==> !Publishes(defs[j], name))
            && (out.commands[out.values[name]].Value? || out.commands[out.values[name]].TextContent?)
            && out.commands[out.values[name]].slot == out.values[name])
      && (forall name, name' :: name in out.values && name' in out.values && out.values[name] == out.values[name'] ==>
            name == name')
  {
    var rs := Outcomes(config.actions, parseDuration, variant);
    OutcomesInterpreted(config.actions, parseDuration, variant);
    InterpretedValues(config, parseDuration, dirCreated, variant, rs);
  }

  /**
   * The values map of `out` binds exactly the names that definitions of `defs`
   * publish, each to the slot of its last publisher, which is the slot that
   * publisher's command writes into; no two names share a slot.
   */
  ghost predicate BindsPublishedNames(defs: seq<seq<string>>, out: ReadOutcome)
    requires out.Planned?
  {
    && (forall name :: name in out.values <==> exists i :: 0 <= i < |defs| && Publishes(defs[i], name))
    && |defs| <= |out.commands|
    && (forall name :: name in out.values ==>
          && out.values[name] < |defs|
          && Publishes(defs[out.values[name]], name)
          && (forall j :: out.values[name] < j < |defs| ==> !Publishes(defs[j], name))
          && (out.commands[out.values[name]].Value? || out.commands[out.values[name]].TextContent?)
          && out.commands[out.values[name]].slot == out.values[name])
    && (forall name, name' :: name in out.values && name' in out.values && out.values[name] == out.values[name'] ==>
          name == name')
  }

  /** The values of a plan built from the interpretation `rs` of the definitions. */
  lemma InterpretedValues(config: RecipeConfig, parseDuration: string -> Option<Duration>,
                          dirCreated: bool, variant: Variant, rs: seq<BuildResult>)
    requires InterpretedAs(config.actions, parseDuration, variant, rs)
    requires Conclude(Loop(rs, |rs|), config, dirCreated).Planned?
    ensures BindsPublishedNames(config.actions, Conclude(Loop(rs, |rs|), config, dirCreated))
  {
    var defs := config.actions;
    InterpretedSlots(defs, parseDuration, variant, rs);
    ConcludeValues(rs, config, dirCreated);
    forall i, name | 0 <= i < |defs|
      ensures ExportsAt(rs, i, name) <==> Publishes(defs[i], name)
    {
      ExportsIffPublishes(defs, parseDuration, variant, rs, i, name);
    }
  }

  /** Interprets definition `i`, which the loop expects to yield `rs[i]`. */
  method BuildAt(defs: seq<seq<string>>, i: nat, parseDuration: string -> Option<Duration>, variant: Variant,
                 ghost rs: seq<BuildResult>) returns (r: BuildResult)
    requires i < |defs|
    requires InterpretedAs(defs, parseDuration, variant, rs)
    ensures r == rs[i]
  {
    r := ActionBuilder(defs[i], i, parseDuration, variant);
  }

  /**
   * The loop of Read: the definitions are interpreted in order without
   * stopping at errors, and the output slots are registered in one shared
   * values map.
   */
  method BuildAll(defs: seq<seq<string>>, parseDuration: string -> Option<Duration>, variant: Variant,
                  ghost rs: seq<BuildResult>) returns (progress: Progress)
    requires InterpretedAs(defs, parseDuration, variant, rs)
    ensures progress == Loop(rs, |defs|)
  {
    var values := new OutputValues();
    var commands: seq<Command> := [];
    var diagnostics: seq<Diagnostic> := [];
    var i := 0;
    while i < |defs|
      invariant 0 <= i <= |defs|
      invariant Loop(rs, i) == Running(LoopState(commands, values.slots, diagnostics))
    {
      var r := BuildAt(defs, i, parseDuration, variant, rs);
      assert Loop(rs, i + 1) == Step(LoopState(commands, values.slots, diagnostics), r, i);
      match r {
        case Panicked(p) =>
          LoopCrashPersists(rs, i + 1, |defs|);
          return Crash(i, p);
        case Failed(e) =>
          diagnostics := diagnostics + [WrongActionDefinition(e)];
        case Built(a) =>
          var command := a.Register(values);
          commands := commands + [command];
      }
      i := i + 1;
    }
    return Running(LoopState(commands, values.slots, diagnostics));
  }

  /**
   * The plan-building part of Read: any error aborts before a browser
   * context is created; a requested screenshot needs its directory.
   */
  method Read(config: RecipeConfig, parseDuration: string -> Option<Duration>,
              dirCreated: bool, variant: Variant) returns (outcome: ReadOutcome)
    ensures outcome == Planning(config, parseDuration, dirCreated, variant)
  {
    ghost var rs := Outcomes(config.actions, parseDuration, variant);
    OutcomesInterpreted(config.actions, parseDuration, variant);
    var progress := BuildAll(config.actions, parseDuration, variant, rs);
    match progress {
      case Crash(at, p) =>
        return Crashed(at, p);
      case Running(st) =>
        if st.diagnostics != [] {
          return Aborted(st.diagnostics);
        }
        var commands := st.commands;
        if config.screenshotFilename != "" {
          if !dirCreated {
            return Aborted([ScreenshotDirectory]);
          }
          var selector := config.screenshotSelector;
          if selector != "" {
            commands := commands + [Screenshot(selector, [NodeVisible])];
          } else {
            commands := commands + [CaptureScreenshot];
          }
        }
        return Planned(PlaceholderId, commands, st.values);
    }
  }
}
