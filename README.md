# Recipe planning in the chromedp Terraform provider

The `chromedp_recipe` data source takes an ordered list of actions. Each action
is a list of strings whose first element is a verb: `navigate`, `wait_visible`,
`click`, `value`, `focus`, `sleep`, `text`, `cookie`, `set_value` or
`press_enter`. The data source interprets every action into a browser command,
registers the output slots of `value` and `text` actions in a shared values map,
and adds one screenshot command when a screenshot file is requested. It runs the
commands in a headless browser only if every action is valid.

This project models that interpreter and the plan-building part of `Read`. It
has two modules:

- `Actions` (`actions.dfy`) covers `actionBuilder`, `NewAction` and
  `(*Action).Action` from `internal/provider/action.go`.
  - `BuildAction` is the interpreter as a function.
  - `ActionBuilder` is the same interpreter written the way the source runs it:
    early returns, and a loop that collects click options. It is proved equal to
    `BuildAction`.
  - `Action.Register` updates the shared values map (`OutputValues`) in place.
    `Action.Registered` specifies it.
- `Recipe` (`recipe.dfy`) covers the plan-building part of `Read` in
  `internal/provider/data_recipe.go`.
  - `Read` and its loop `BuildAll` are methods.
  - They are proved against `Planning`, which folds `Loop` over the outcomes of
    interpreting each definition and then applies `Conclude`.

Modelling choices:

- **Output slots.** Each `new(string)` output pointer becomes a `SlotId`.
  `Read` gives definition `i` the slot `i`, so distinct definitions never share
  a slot. The command and the action carry the same slot, which mirrors the
  source's shared pointer.
- **External results as parameters.**
  - `time.ParseDuration` is the parameter `parseDuration`: `None` means a syntax
    error.
  - The outcome of `os.MkdirAll` is the parameter `dirCreated`.
- **Panics.** A Go runtime panic (index out of range) is a `Panicked` result.
  In `Read`, a panic ends planning with `Crashed`.
- **Two variants.** `Variant.AsWritten` is the source as it stands.
  `Variant.Corrected` repairs the two defects listed under Findings. Every
  lemma about `Read` holds for both variants.

## Model

| member | source | states |
|---|---|---|
| Actions.OutputValues.constructor | internal/provider/data_recipe.go:158 | the values map starts empty |
| Actions.Action.Registered | internal/provider/action.go:29-34 | an action with a name and a slot binds that name to its slot; every other binding is kept; an action without both leaves the map unchanged |
| Actions.Action.Register | internal/provider/action.go:29-34 | updates the shared map in place as `Registered` says, and returns the action's command unchanged |
| Actions.VisibleOptions | internal/provider/action.go:66-71 | one `NodeVisible` option for each trailing argument equal to "visible"; other names are ignored |
| Actions.BuildAction | internal/provider/action.go:36-145 | an empty list is malformed; an unknown verb is reported as unknown; a wrong argument count is reported exactly when the verb's arity does not admit it; a sleep fails exactly when its duration does not parse; the two panics happen exactly for `["press_enter"]` and a three-element cookie, and only as written; otherwise the action is built. A built action's command has the verb it was defined with. Only value and text get an output slot: the fresh slot, named by the last argument and written by the command. Navigate carries its URL; wait_visible and focus carry their selector; set_value carries its selector and value; press_enter, when built, sends Enter to its selector. Click keeps its selector and counts its visible options. Sleep carries the parsed duration. Cookie keeps its name and value, and its domain only when corrected |
| Actions.DeclaredArity | internal/provider/action.go:48-143 | the argument count each verb admits: exactly one for navigate, wait_visible, focus and sleep; exactly two for value, text and set_value; at least one for click; at least two for cookie; zero for press_enter as written and one when corrected; no arity for any other verb |
| Actions.BuildCookie | internal/provider/action.go:104-127 | the cookie verb once two arguments are known: as written, exactly two arguments panic reading index 2, and more build a cookie without domain; corrected, the third argument is the domain |
| Actions.BuildPressEnter | internal/provider/action.go:135-140 | the press_enter verb: as written, any argument is a count error and none panics reading index 0; corrected, one selector builds SendKeys of Enter |
| Actions.ActionBuilder | internal/provider/action.go:36-145 | the imperative interpreter, with its click-option loop, returns exactly `BuildAction`'s result |
| Actions.CookieWithoutDomainPanics | internal/provider/action.go:104-113 | as written, `["cookie", name, value]` panics reading index 2 of a 2-element list |
| Actions.CookieDomainIgnored | internal/provider/action.go:104-113 | as written, a cookie given a domain builds with an empty domain |
| Actions.PressEnterNeverBuilds | internal/provider/action.go:135-140 | as written, no press_enter definition builds: with arguments it is a count error, and with none it panics reading index 0 |
| Actions.CorrectedBuildsCookieAndPressEnter | internal/provider/action.go:104-140 | corrected, no definition panics; a cookie builds with or without a domain; press_enter sends Enter to its one selector |
| Recipe.Outcomes | internal/provider/data_recipe.go:163-165 | one interpretation per definition |
| Recipe.OutcomesInterpreted | internal/provider/data_recipe.go:163-165 | outcome `i` is the interpretation of definition `i` with `i` as its fresh slot, for every definition |
| Recipe.Step | internal/provider/data_recipe.go:164-170 | one turn of the loop: a panic stops it, a failure appends one "wrong action definition" diagnostic, an action registers its output and appends its command |
| Recipe.Loop | internal/provider/data_recipe.go:158-171 | the loop's state after the first `n` definitions, starting from no commands, an empty values map and no diagnostics |
| Recipe.ScreenshotCommand | internal/provider/data_recipe.go:188-193 | a screenshot of the selected element, visible, when a selector is set, else of the whole page |
| Recipe.Conclude | internal/provider/data_recipe.go:156-194 | after the loop: a panic propagates; any diagnostic aborts; with no screenshot file the plan is the loop's commands; a missing directory aborts; otherwise the screenshot command is appended |
| Recipe.Planning | internal/provider/data_recipe.go:149-194 | what Read decides before running anything: `Conclude` after `Loop` over the definitions' outcomes |
| Recipe.ExportsIffPublishes | internal/provider/action.go:29-31 | an interpreted definition registers under a name exactly when it is a value or text definition with that non-empty name |
| Recipe.InterpretedSlots | internal/provider/action.go:73-103 | each value or text action gets its own definition's index as slot, and its command writes into that slot |
| Recipe.FailingIndices | internal/provider/data_recipe.go:163-168 | the indices of the failing definitions, strictly increasing, all of them and only them |
| Recipe.LoopCrashPersists | internal/provider/data_recipe.go:163-171 | once the loop has crashed, later definitions change nothing |
| Recipe.LoopCrash | internal/provider/data_recipe.go:163-171 | the loop keeps running exactly when no definition so far panicked; otherwise it stops at the first panic |
| Recipe.LoopDiagnostics | internal/provider/data_recipe.go:165-168 | one diagnostic per failing definition, in definition order, carrying that definition's error |
| Recipe.LoopCommands | internal/provider/data_recipe.go:163-171 | when every definition builds, the commands are theirs, one each, in order |
| Recipe.LoopClean | internal/provider/data_recipe.go:163-175 | the loop records only definition errors, and records none exactly when every definition built |
| Recipe.LoopValues | internal/provider/data_recipe.go:158-171 | the values map binds exactly the registered names, each to its last registering definition |
| Recipe.ConcludeCrashes | internal/provider/data_recipe.go:163-171 | over any results, planning crashes exactly when some result panics, at the first one |
| Recipe.ConcludeAllOrNothing | internal/provider/data_recipe.go:163-186 | over any results, a plan exists exactly when all results are actions and the screenshot directory exists if one is needed; the directory error alone is reported exactly when that is all that is wrong |
| Recipe.ConcludeFailures | internal/provider/data_recipe.go:163-175 | over any results without a panic but with a failure, planning aborts with one diagnostic per failure, in order |
| Recipe.ConcludeCommands | internal/provider/data_recipe.go:156-194 | over any results, a plan has the placeholder id, the results' commands in order, and then the screenshot command exactly when a file is requested |
| Recipe.ConcludeValues | internal/provider/data_recipe.go:158-171 | over any results with index slots, a plan's values map binds exactly the registered names, each to the last registering result, whose command writes into that slot |
| Recipe.PlanningCrashes | internal/provider/data_recipe.go:163-171 | `Read` crashes exactly when some definition panics, and then at the first one |
| Recipe.PlanningAllOrNothing | internal/provider/data_recipe.go:163-186 | a plan exists exactly when every definition builds and, if a screenshot file is set, its directory was created; when only the directory is missing, that alone is reported |
| Recipe.PlanningReportsEveryFailure | internal/provider/data_recipe.go:163-175 | short of a panic, any failing definition aborts planning with one "wrong action definition" per failing definition, in order, each carrying its error |
| Recipe.PlanningCommands | internal/provider/data_recipe.go:156-194 | a plan carries the id "placeholder", one command per definition in order, and then one screenshot command exactly when a file is requested: of the selected element when a selector is set, else of the whole page |
| Recipe.PlanningValues | internal/provider/data_recipe.go:158-171 | a plan's values map holds exactly the names that value and text definitions publish; each is bound to the slot of the last definition that publishes it, and that definition's command writes into that slot; no two names share a slot |
| Recipe.InterpretedValues | internal/provider/data_recipe.go:158-171 | the statement of `PlanningValues`, for the results of interpreting the definitions |
| Recipe.BuildAt | internal/provider/data_recipe.go:165 | interpreting definition `i` yields its outcome |
| Recipe.BuildAll | internal/provider/data_recipe.go:158-171 | the imperative loop, which mutates the values map in place, ends exactly as `Loop` over the definitions' outcomes |
| Recipe.Read | internal/provider/data_recipe.go:149-194 | the plan-building part of `Read` decides exactly what `Planning` says |

## Left out

- Running the commands with chromedp, the browser context (`ctx_creator.go`), and everything `Read` does after planning: these are I/O. That covers `d.run`, reading the values, `MapValueFrom`, writing the screenshot file and `State.Set`. Commands are opaque constructors here.
- `time.ParseDuration` is a parameter. Its grammar is Go's standard library, not this repository.
- The cookie command's expiry (`time.Now` plus 24 hours) and the `SetCookie` call are I/O at run time. Only the name, value and domain are modelled.
- `os.MkdirAll` is the boolean `dirCreated`. The odd mode 0600, `filepath.Dir` and the message text are not modelled.
- `req.Config.Get` and its diagnostics are not modelled: the configuration arrives already decoded as `RecipeConfig`. Null or unknown Terraform strings read as "", as `ValueString` returns.
- Error messages are datatype values (`BuildError`, `Diagnostic`) rather than formatted strings.
- Recipe.LoopDiagnostics: reports one diagnostic per failing definition. The plugin framework's `AddError` skips a diagnostic equal to one already present. So two definitions failing with the same message, such as `["navigate"]` twice, give one diagnostic in Go and two here. The messages are not modelled as strings, and the framework is not part of this model.
- Recipe.ConcludeFailures: counts diagnostics one per failing result, so it does not capture the framework's removal of equal diagnostics (see Recipe.LoopDiagnostics).
- Recipe.PlanningReportsEveryFailure: states one diagnostic per failing definition, so it does not capture the framework's removal of equal diagnostics (see Recipe.LoopDiagnostics).
- `tflog` debug logging is not modelled: it has no effect on the plan.
- The schema, the `AlsoRequires` validator on the screenshot selector, and the provider configuration (`provider.go`) are not part of this model.
- `Actions.VisibleOptions`: counts the options rather than listing them, because the only option the source ever appends is `NodeVisible`.

## Findings

| source | as written | input that shows it | evidently intended | confidence | as-written member | corrected member |
|---|---|---|---|---|---|---|
| internal/provider/action.go:112-113 | the domain `args[2]` is read when there are exactly two arguments | `["cookie", "session", "abc"]` panics with index 2 out of range; `["cookie", "session", "abc", "example.com"]` builds without its domain | read the domain when there are more than two arguments | high (not executed) | Actions.CookieWithoutDomainPanics | Actions.CorrectedBuildsCookieAndPressEnter |
| internal/provider/action.go:136-139 | press_enter requires zero arguments and then reads the selector `args[0]` | `["press_enter"]` panics with index 0 out of range; `["press_enter", "#q"]` is a count error | either require one selector argument and send Enter to it, or keep zero arguments and send Enter without a selector; the message "expects 0 arguments" fits the second reading, and which one was meant is a guess. The model takes the first | high (not executed) | Actions.PressEnterNeverBuilds | Actions.CorrectedBuildsCookieAndPressEnter |

The corrected interpreter is `BuildAction` and `ActionBuilder` under
`Variant.Corrected`. The lemmas about `Read` hold for it as they do for the code
as written.
