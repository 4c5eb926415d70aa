/**
 * The action-definition interpreter of the chromedp Terraform provider
 * (internal/provider/action.go).
 *
 * One action definition is a list of strings whose first element is a verb.
 * `BuildAction` checks the argument count for that verb and yields either an
 * error, a Go runtime panic, or an `Action`: a browser command together with an
 * optional named output slot. Browser commands are opaque constructors here;
 * nothing in this module runs them.
 */
module Actions {

  datatype Option<+T> = None | Some(value: T)

  /** Identity of an output slot: the `*string` a value or text command writes into. */
  type SlotId = nat

  /** A parsed sleep duration in nanoseconds, as Go's `time.Duration`. */
  type Duration = int

  /**
   * `AsWritten` is the interpreter exactly as the source has it; `Corrected`
   * repairs the cookie and press_enter cases (see the findings in README.md).
   * Every other verb behaves the same under both.
   */
  datatype Variant = AsWritten | Corrected

  /** The only query option the interpreter ever passes: `chromedp.NodeVisible`. */
  datatype QueryOption = NodeVisible

  datatype Key = Enter

  /** The browser commands the interpreter and the recipe can build. */
  datatype Command =
    | Navigate(url: string)
    | WaitVisible(selector: string)
    | Click(selector: string, opts: seq<QueryOption>)
    | Value(selector: string, slot: SlotId)
    | Focus(selector: string)
    | Sleep(duration: Duration)
    | TextContent(selector: string, slot: SlotId)
    | SetCookie(name: string, value: string, domain: string)
    | SetValue(selector: string, value: string)
    | SendKeys(selector: string, key: Key)
    | Screenshot(selector: string, opts: seq<QueryOption>)
    | CaptureScreenshot

  datatype BuildError =
    | MalformedAction
    | ArgumentCount(verb: string, got: nat)
    | DurationSyntax(text: string)
    | UnknownAction(verb: string)

  /** A Go runtime panic: reading index `index` of a slice of length `length`. */
  datatype Panic = IndexOutOfRange(index: nat, length: nat)

  datatype BuildResult =
    | Built(action: Action)
    | Failed(error: BuildError)
    | Panicked(panic: Panic)

  /**
   * The values map of a recipe: output names to the slots that the value and
   * text commands write into. The source shares one Go map between the recipe
   * and every action, which updates it in place.
   */
  class OutputValues {
    var slots: map<string, SlotId>

    constructor ()
      ensures slots == map[]
    {
      slots := map[];
    }
  }

  /**
   * A built action: its command, the name under which its output is
   * published, and its output slot (Go's nil pointer is `None`).
   * `NewAction` of the source is this datatype's constructor.
   */
  datatype Action = Action(command: Command, valueName: string, output: Option<SlotId>) {

    /** Whether registering this action publishes an output slot. */
    predicate Exports() {
      valueName != "" && output.Some?
    }

    /** The values map after registering this action in `values`. */
    function Registered(values: map<string, SlotId>): (r: map<string, SlotId>)
      ensures Exports() ==> valueName in r && r[valueName] == output.value
      ensures r.Keys == if Exports() then values.Keys + {valueName} else values.Keys
      ensures forall k :: k in values && !(Exports() && k == valueName) ==> r[k] == values[k]
    {
      if Exports() then values[valueName := output.value] else values
    }

    /**
     * Registers the output slot in the shared values map and hands back the
     * command unchanged.
     */
    method Register(values: OutputValues) returns (cmd: Command)
      modifies values
      ensures values.slots == Registered(old(values.slots))
      ensures cmd == command
    {
      if valueName != "" && output.Some? {
        values.slots := values.slots[valueName := output.value];
      }
      cmd := command;
    }
  }

  /** How many arguments (after the verb) a verb's count check admits. */
  datatype Arity = Exactly(n: nat) | AtLeast(n: nat) {
    predicate Admits(count: nat) {
      if Exactly? then count == n else n <= count
    }
  }

  /** The verb table: the argument count each recognised verb's check admits. */
  function DeclaredArity(verb: string, variant: Variant): Option<Arity> {
    if verb in {"navigate", "wait_visible", "focus", "sleep"} then Some(Exactly(1))
    else if verb in {"value", "text", "set_value"} then Some(Exactly(2))
    else if verb == "click" then Some(AtLeast(1))
    else if verb == "cookie" then Some(AtLeast(2))
    else if verb == "press_enter" then Some(Exactly(if variant == AsWritten then 0 else 1))
    else None
  }

  /** A non-empty definition whose verb is recognised and whose argument count is admitted. */
  predicate Admitted(actionArgs: seq<string>, variant: Variant) {
    && actionArgs != []
    && DeclaredArity(actionArgs[0], variant).Some?
    && DeclaredArity(actionArgs[0], variant).value.Admits(|actionArgs| - 1)
  }

  /** The verb that builds a command; the screenshot commands come from no verb. */
  function VerbOf(c: Command): string {
    match c
    case Navigate(_) => "navigate"
    case WaitVisible(_) => "wait_visible"
    case Click(_, _) => "click"
    case Value(_, _) => "value"
    case Focus(_) => "focus"
    case Sleep(_) => "sleep"
    case TextContent(_, _) => "text"
    case SetCookie(_, _, _) => "cookie"
    case SetValue(_, _) => "set_value"
    case SendKeys(_, _) => "press_enter"
    case Screenshot(_, _) => ""
    case CaptureScreenshot => ""
  }

  /** The click options for the trailing arguments: one NodeVisible per "visible". */
  function VisibleOptions(names: seq<string>): (opts: seq<QueryOption>)
    ensures |opts| == multiset(names)["visible"]
    decreases |names|
  {
    if names == [] then []
    else
      var n := |names| - 1;
      assert names == names[..n] + [names[n]];
      VisibleOptions(names[..n]) + (if names[n] == "visible" then [NodeVisible] else [])
  }

  /** The cookie verb, once at least two arguments are known to be present. */
  function BuildCookie(args: seq<string>, variant: Variant): (r: BuildResult)
    requires |args| >= 2
  {
    match variant
    case AsWritten =>
      // the domain is read only when there is no third argument
      if |args| == 2 then Panicked(IndexOutOfRange(2, |args|))
      else Built(Action(SetCookie(args[0], args[1], ""), "", None))
    case Corrected =>
      Built(Action(SetCookie(args[0], args[1], if |args| > 2 then args[2] else ""), "", None))
  }

  /** The press_enter verb. */
  function BuildPressEnter(args: seq<string>, variant: Variant): (r: BuildResult) {
    match variant
    case AsWritten =>
      // the count check admits only the empty list, which has no selector to read
      if |args| != 0 then Failed(ArgumentCount("press_enter", |args|))
      else Panicked(IndexOutOfRange(0, |args|))
    case Corrected =>
      if |args| != 1 then Failed(ArgumentCount("press_enter", |args|))
      else Built(Action(SendKeys(args[0], Enter), "", None))
  }

  /**
   * Interprets one action definition. `newSlot` is the fresh output slot that the
   * value and text verbs allocate; `parseDuration` is Go's time.ParseDuration.
   */
  function BuildAction(actionArgs: seq<string>, newSlot: SlotId,
                       parseDuration: string -> Option<Duration>, variant: Variant): (r: BuildResult)
    // an empty definition, and only that, is malformed
    ensures actionArgs == [] <==> r == Failed(MalformedAction)
    // an unrecognised verb is reported as such
    ensures actionArgs != [] ==>
      (DeclaredArity(actionArgs[0], variant).None? <==> r == Failed(UnknownAction(actionArgs[0])))
    // for a recognised verb, a count error is reported exactly when the count is not admitted
    ensures actionArgs != [] && DeclaredArity(actionArgs[0], variant).Some? ==>
      (r == Failed(ArgumentCount(actionArgs[0], |actionArgs| - 1)) <==> !Admitted(actionArgs, variant))
    // the duration of sleep is the only other reason to fail
    ensures r.Failed? && r.error.DurationSyntax? <==>
      Admitted(actionArgs, variant) && actionArgs[0] == "sleep" && parseDuration(actionArgs[1]).None?
    ensures r.Failed? && r.error.DurationSyntax? ==> r.error.text == actionArgs[1]
    // the two index-out-of-range panics, present only as written
    ensures r.Panicked? <==>
      variant == AsWritten && (actionArgs == ["press_enter"] || (|actionArgs| == 3 && actionArgs[0] == "cookie"))
    ensures r.Panicked? ==> r.panic == IndexOutOfRange(|actionArgs| - 1, |actionArgs| - 1)
    // success
    ensures r.Built? <==>
      Admitted(actionArgs, variant) && !r.Panicked? && (actionArgs[0] == "sleep" ==> parseDuration(actionArgs[1]).Some?)
    ensures r.Built? ==> VerbOf(r.action.command) == actionArgs[0]
    // output slots belong to value and text only, and are the fresh slot named by the second argument
    ensures r.Built? ==> (r.action.output.Some? <==> actionArgs[0] in {"value", "text"})
    ensures r.Built? && r.action.output.None? ==> r.action.valueName == ""
    ensures r.Built? && r.action.output.Some? ==>
      && r.action.output.value == newSlot
      && r.action.valueName == actionArgs[2]
      && (r.action.command.Value? || r.action.command.TextContent?)
      && r.action.command.slot == newSlot
      && r.action.command.selector == actionArgs[1]
    // the one-argument commands carry their URL or selector; set_value its selector and value
    ensures r.Built? && actionArgs[0] == "navigate" ==> r.action.command == Navigate(actionArgs[1])
    ensures r.Built? && actionArgs[0] == "wait_visible" ==> r.action.command == WaitVisible(actionArgs[1])
    ensures r.Built? && actionArgs[0] == "focus" ==> r.action.command == Focus(actionArgs[1])
    ensures r.Built? && actionArgs[0] == "set_value" ==> r.action.command == SetValue(actionArgs[1], actionArgs[2])
    ensures r.Built? && actionArgs[0] == "press_enter" ==> r.action.command == SendKeys(actionArgs[1], Enter)
    // click: the selector, and one visibility option per trailing "visible"
    ensures r.Built? && actionArgs[0] == "click" ==>
      && r.action.command.selector == actionArgs[1]
      && |r.action.command.opts| == multiset(actionArgs[2..])["visible"]
    // sleep: the parsed duration
    ensures r.Built? && actionArgs[0] == "sleep" ==> r.action.command == Sleep(parseDuration(actionArgs[1]).value)
    // cookie: name and value; as written the domain is never set
    ensures r.Built? && actionArgs[0] == "cookie" ==>
      && r.action.command.name == actionArgs[1]
      && r.action.command.value == actionArgs[2]
      && r.action.command.domain == (if variant == Corrected && |actionArgs| > 3 then actionArgs[3] else "")
  {
    if |actionArgs| < 1 then Failed(MalformedAction)
    else
      var verb, args := actionArgs[0], actionArgs[1..];
      if verb == "navigate" then
        if |args| != 1 then Failed(ArgumentCount(verb, |args|))
        else Built(Action(Navigate(args[0]), "", None))
      else if verb == "wait_visible" then
        if |args| != 1 then Failed(ArgumentCount(verb, |args|))
        else Built(Action(WaitVisible(args[0]), "", None))
      else if verb == "click" then
        if |args| < 1 then Failed(ArgumentCount(verb, |args|))
        else Built(Action(Click(args[0], VisibleOptions(args[1..])), "", None))
      else if verb == "value" then
        if |args| != 2 then Failed(ArgumentCount(verb, |args|))
        else Built(Action(Value(args[0], newSlot), args[1], Some(newSlot)))
      else if verb == "focus" then
        if |args| != 1 then Failed(ArgumentCount(verb, |args|))
        else Built(Action(Focus(args[0]), "", None))
      else if verb == "sleep" then
        if |args| != 1 then Failed(ArgumentCount(verb, |args|))
        else
          match parseDuration(args[0])
          case None => Failed(DurationSyntax(args[0]))
          case Some(d) => Built(Action(Sleep(d), "", None))
      else if verb == "text" then
        if |args| != 2 then Failed(ArgumentCount(verb, |args|))
        else Built(Action(TextContent(args[0], newSlot), args[1], Some(newSlot)))
      else if verb == "cookie" then
        if |args| < 2 then Failed(ArgumentCount(verb, |args|))
        else BuildCookie(args, variant)
      else if verb == "set_value" then
        if |args| != 2 then Failed(ArgumentCount(verb, |args|))
        else Built(Action(SetValue(args[0], args[1]), "", None))
      else if verb == "press_enter" then
        BuildPressEnter(args, variant)
      else
        Failed(UnknownAction(verb))
  }

  /**
   * The interpreter as the source runs it: a verb dispatch that returns early
   * on every error, with a loop collecting the click options.
   */
  method ActionBuilder(actionArgs: seq<string>, newSlot: SlotId,
                       parseDuration: string -> Option<Duration>, variant: Variant) returns (r: BuildResult)
    ensures r == BuildAction(actionArgs, newSlot, parseDuration, variant)
  {
    if |actionArgs| < 1 {
      return Failed(MalformedAction);
    }
    var verb, args := actionArgs[0], actionArgs[1..];
    var command: Command;
    var valueName := "";
    var output: Option<SlotId> := None;
    if verb == "navigate" {
      if |args| != 1 {
        return Failed(ArgumentCount(verb, |args|));
      }
      command := Navigate(args[0]);
    } else if verb == "wait_visible" {
      if |args| != 1 {
        return Failed(ArgumentCount(verb, |args|));
      }
      command := WaitVisible(args[0]);
    } else if verb == "click" {
      if |args| < 1 {
        return Failed(ArgumentCount(verb, |args|));
      }
      var names := args[1..];
      var opts: seq<QueryOption> := [];
      for j := 0 to |names|
        invariant opts == VisibleOptions(names[..j])
      {
        assert names[..j + 1][..j] == names[..j];
        if names[j] == "visible" {
          opts := opts + [NodeVisible];
        }
      }
      assert names[..|names|] == names;
      command := Click(args[0], opts);
    } else if verb == "value" {
      if |args| != 2 {
        return Failed(ArgumentCount(verb, |args|));
      }
      valueName, output := args[1], Some(newSlot);
      command := Value(args[0], newSlot);
    } else if verb == "focus" {
      if |args| != 1 {
        return Failed(ArgumentCount(verb, |args|));
      }
      command := Focus(args[0]);
    } else if verb == "sleep" {
      if |args| != 1 {
        return Failed(ArgumentCount(verb, |args|));
      }
      var parsed := parseDuration(args[0]);
      if parsed.None? {
        return Failed(DurationSyntax(args[0]));
      }
      command := Sleep(parsed.value);
    } else if verb == "text" {
      if |args| != 2 {
        return Failed(ArgumentCount(verb, |args|));
      }
      valueName, output := args[1], Some(newSlot);
      command := TextContent(args[0], newSlot);
    } else if verb == "cookie" {
      if |args| < 2 {
        return Failed(ArgumentCount(verb, |args|));
      }
      var cookieDomain := "";
      match variant {
        case AsWritten =>
          // the source reads args[2] exactly when there are two arguments
          if |args| == 2 {
            return Panicked(IndexOutOfRange(2, |args|));
          }
        case Corrected =>
          if |args| > 2 {
            cookieDomain := args[2];
          }
      }
      command := SetCookie(args[0], args[1], cookieDomain);
    } else if verb == "set_value" {
      if |args| != 2 {
        return Failed(ArgumentCount(verb, |args|));
      }
      command := SetValue(args[0], args[1]);
    } else if verb == "press_enter" {
      var wanted := if variant == AsWritten then 0 else 1;
      if |args| != wanted {
        return Failed(ArgumentCount(verb, |args|));
      }
      if |args| == 0 {
        // the source reads the selector args[0] of an empty list
        return Panicked(IndexOutOfRange(0, |args|));
      }
      command := SendKeys(args[0], Enter);
    } else {
      return Failed(UnknownAction(verb));
    }
    return Built(Action(command, valueName, output));
  }

  // Findings: the two definitions the source accepts and then cannot build.

  /** As written, a cookie with a name and a value but no domain panics. */
  lemma CookieWithoutDomainPanics(parseDuration: string -> Option<Duration>, slot: SlotId)
    ensures BuildAction(["cookie", "session", "abc"], slot, parseDuration, AsWritten)
         == Panicked(IndexOutOfRange(2, 2))
  {
  }

  /** As written, a cookie given a domain builds, but the domain is dropped. */
  lemma CookieDomainIgnored(parseDuration: string -> Option<Duration>, slot: SlotId)
    ensures BuildAction(["cookie", "session", "abc", "example.com"], slot, parseDuration, AsWritten)
         == Built(Action(SetCookie("session", "abc", ""), "", None))
  {
  }

  /** As written, press_enter never builds: with arguments it is refused, without them it panics. */
  lemma PressEnterNeverBuilds(args: seq<string>, parseDuration: string -> Option<Duration>, slot: SlotId)
    ensures var r := BuildAction(["press_enter"] + args, slot, parseDuration, AsWritten);
      && !r.Built?
      && (args == [] <==> r == Panicked(IndexOutOfRange(0, 0)))
  {
    assert (["press_enter"] + args)[0] == "press_enter";
    assert (["press_enter"] + args)[1..] == args;
  }

  /**
   * Corrected, no definition panics; a cookie keeps its optional domain and
   * press_enter sends Enter to its one selector argument.
   */
  lemma CorrectedBuildsCookieAndPressEnter(name: string, value: string, domain: string, selector: string,
                                          parseDuration: string -> Option<Duration>, slot: SlotId)
    ensures forall actionArgs :: !BuildAction(actionArgs, slot, parseDuration, Corrected).Panicked?
    ensures BuildAction(["cookie", name, value], slot, parseDuration, Corrected)
         == Built(Action(SetCookie(name, value, ""), "", None))
    ensures BuildAction(["cookie", name, value, domain], slot, parseDuration, Corrected)
         == Built(Action(SetCookie(name, value, domain), "", None))
    ensures BuildAction(["press_enter", selector], slot, parseDuration, Corrected)
         == Built(Action(SendKeys(selector, Enter), "", None))
  {
  }
}
