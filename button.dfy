/**
 * The toolbar button. A click on an enabled button triggers its command
 * (with its parameters, if it has any) or else its event, and always ends
 * with 'clicked'; a click on a disabled button triggers nothing. Options
 * that are absent (JavaScript `undefined`) or empty are "" here, and an
 * absent parameter list is `None` (a JavaScript array, even an empty one,
 * is truthy).
 */
module ToolbarButton {
  import opened Wrappers

  /** The options a button is built from (`_setOptions`). */
  datatype ButtonOptions = ButtonOptions(
    command: string, event: string, text: string, tooltip: string,
    params: Option<seq<string>>, style: string, state: string)

  /** One `trigger(...)` call of the button. */
  datatype Trigger =
    | CommandTrigger(command: string)
    | CommandWithParams(command: string, params: seq<string>)
    | EventTrigger(event: string)
    | Clicked

  /** How many 'clicked' triggers `ts` holds. */
  function ClickedCount(ts: seq<Trigger>): nat
  {
    if ts == [] then 0 else (if ts[0] == Clicked then 1 else 0) + ClickedCount(ts[1..])
  }

  /** The trigger that a command (and its parameters, if any) produces. */
  function CommandTriggerOf(command: string, params: Option<seq<string>>): (r: Trigger)
    ensures params.Some? ==> r == CommandWithParams(command, params.value)
    ensures params.None? ==> r == CommandTrigger(command)
  {
    match params
    case Some(ps) => CommandWithParams(command, ps)
    case None => CommandTrigger(command)
  }

  /**
   * The triggers of one click (`_onClick`). A disabled button triggers
   * nothing. An enabled one triggers at most one command or event, the
   * command taking precedence, and ends with exactly one 'clicked'.
   */
  function ClickTriggers(enabled: bool, o: ButtonOptions): (r: seq<Trigger>)
    ensures !enabled ==> r == []
    ensures enabled ==> |r| >= 1 && r[|r| - 1] == Clicked && ClickedCount(r) == 1
    ensures enabled && o.command != "" ==> r == [CommandTriggerOf(o.command, o.params), Clicked]
    ensures enabled && o.command == "" && o.event != "" ==> r == [EventTrigger(o.event), Clicked]
    ensures enabled && o.command == "" && o.event == "" ==> r == [Clicked]
    ensures forall i | 0 <= i < |r| :: r[i].EventTrigger? ==> o.command == "" && r[i] == EventTrigger(o.event)
  {
    if !enabled then
      []
    else
      var first := if o.command != "" then [CommandTriggerOf(o.command, o.params)]
                   else if o.event != "" then [EventTrigger(o.event)]
                   else [];
      var r := first + [Clicked];
      assert ClickedCount(first) == 0 by {
        if first != [] { assert first[1..] == []; }
      }
      ClickedCountAppend(first, [Clicked]);
      assert ClickedCount([Clicked]) == 1 by { assert [Clicked][1..] == []; }
      r
  }

  lemma {:induction false} ClickedCountAppend(a: seq<Trigger>, b: seq<Trigger>)
    ensures ClickedCount(a + b) == ClickedCount(a) + ClickedCount(b)
    decreases |a|
  {
    if a == [] {
      assert a + b == b;
    } else {
      assert (a + b)[1..] == a[1..] + b;
      ClickedCountAppend(a[1..], b);
    }
  }

  class Button {
    var command: string
    var event: string
    var text: string
    var tooltip: string
    var params: Option<seq<string>>
    var style: string
    var state: string
    var disabled: bool
    var triggered: seq<Trigger>

    /** The options the button currently holds. */
    ghost function Options(): ButtonOptions
      reads this
    {
      ButtonOptions(command, event, text, tooltip, params, style, state)
    }

    /** A new, enabled button that has triggered nothing yet. */
    constructor (options: ButtonOptions)
      ensures Options() == options && !disabled && triggered == []
    {
      command, event, text, tooltip := options.command, options.event, options.text, options.tooltip;
      params, style, state := options.params, options.style, options.state;
      disabled := false;
      triggered := [];
    }

    /** `setTooltip(text)`: changes the tooltip and nothing else. */
    method SetTooltip(t: string)
      modifies this
      ensures Options() == old(Options()).(tooltip := t)
      ensures disabled == old(disabled) && triggered == old(triggered)
    {
      tooltip := t;
    }

    /** `_setOptions(options)`: copies every option into its field unchanged. */
    method SetOptions(options: ButtonOptions)
      modifies this
      ensures Options() == options
      ensures disabled == old(disabled) && triggered == old(triggered)
    {
      command := options.command;
      event := options.event;
      text := options.text;
      tooltip := options.tooltip;
      params := options.params;
      style := options.style;
      state := options.state;
    }

    method Enable()
      modifies this
      ensures !disabled
      ensures Options() == old(Options()) && triggered == old(triggered)
    {
      disabled := false;
    }

    method Disable()
      modifies this
      ensures disabled
      ensures Options() == old(Options()) && triggered == old(triggered)
    {
      disabled := true;
    }

    /** `isEnabled()`: true exactly when the button is not disabled. */
    method IsEnabled() returns (b: bool)
      ensures b <==> !disabled
    {
      b := !disabled;
    }

    /** `trigger(t)`: records `t`. */
    method Trigger(t: Trigger)
      modifies this
      ensures triggered == old(triggered) + [t]
      ensures Options() == old(Options()) && disabled == old(disabled)
    {
      triggered := triggered + [t];
    }

    /** `_onClick`, the 'click' handler. */
    method OnClick()
      modifies this
      ensures triggered == old(triggered) + ClickTriggers(!old(disabled), old(Options()))
      ensures Options() == old(Options()) && disabled == old(disabled)
    {
      var enabled := IsEnabled();
      if !enabled {
        return;
      }

      if command != "" {
        if params.Some? {
          Trigger(CommandWithParams(command, params.value));
        } else {
          Trigger(CommandTrigger(command));
        }
      } else if event != "" {
        Trigger(EventTrigger(event));
      }

      Trigger(Clicked);
    }
  }
}
