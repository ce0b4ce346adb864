/**
 * The loop of `openai-cl.py` as the program runs it: the module-level
 * variables are the fields of a `Session`, the two key bindings are methods
 * that raise a flag, and each pass through `while True` is a call of `Step`,
 * written statement by statement and proved to do what `Chat.StepSpec` says.
 */
module ChatLoop {
  import opened Wrappers
  import opened PyStr
  import opened Chat

  class Session {
    var messages: seq<Turn>
    var lastResponse: Option<string>
    var submitFlag: bool
    var exitFlag: bool
    /** The Python name `response`: `None` until a completion was first received. */
    var response: Option<Completion>

    function View(): State
      reads this
    {
      State(messages, lastResponse, submitFlag, exitFlag, response)
    }

    /** The variables as they are before the first prompt, `messages` seeded by the command-line options. */
    constructor(seed: seq<Turn>)
      ensures View() == Initial(seed)
    {
      messages := seed;
      lastResponse := Some("");
      submitFlag := false;
      exitFlag := false;
      response := None;
    }

    /** The Ctrl-Space binding: raise the submit flag and leave the prompt with the buffer's text. */
    method OnCtrlSpace(buffer: string) returns (result: Option<string>)
      modifies this
      ensures View() == old(View()).(submitFlag := true)
      ensures result == Some(buffer)
    {
      submitFlag := true;
      result := Some(buffer);
    }

    /** The Ctrl-Q binding: raise the exit flag and leave the prompt with no result. */
    method OnCtrlQ() returns (result: Option<string>)
      modifies this
      ensures View() == old(View()).(exitFlag := true)
      ensures result == None
    {
      exitFlag := true;
      result := None;
    }

    /** `session.prompt(...)`: the user edits the buffer and leaves the prompt by one of the gestures. */
    method Prompt(g: Gesture) returns (input: Option<string>)
      modifies this
      ensures (View(), input) == Press(old(View()), g)
    {
      match g
      case CtrlSpace(buffer) => input := OnCtrlSpace(buffer);
      case CtrlQ => input := OnCtrlQ();
      case Accept(buffer) => input := Some(buffer);
    }

    /** The submit branch: append the user turn, call the endpoint, show the reply, append the assistant turn. */
    method Send(text: string, gateway: Gateway) returns (status: Status, effects: seq<Effect>)
      modifies this
      ensures Outcome(View(), status, effects) == Submit(old(View()), text, gateway)
    {
      submitFlag := false;
      messages := messages + [Turn(User, Some(text))];
      var reply := gateway(messages);
      match reply {
        case Returned(c) =>
          response := Some(c);
          if |c.choices| > 0 {
            lastResponse := c.choices[0];
          } else {
            lastResponse := Some(ErrorPrefix + IndexErrorText);
          }
        case Raised(e) =>
          lastResponse := Some(ErrorPrefix + e);
      }
      effects := [Print(""), Banner];
      if lastResponse != None {
        effects := effects + [Markdown(lastResponse.value)];
      } else {
        effects := effects + [Print(NoResponseText), Markdown("None")];
      }
      effects := effects + [Print("")];
      if response == None {
        status := Crashed(NameErrorText);
        return;
      }
      if |response.value.choices| == 0 {
        status := Crashed(IndexErrorRaised);
        return;
      }
      messages := messages + [Turn(Assistant, response.value.choices[0])];
      status := Continue;
    }

    /** The commands and the submit branch, on non-empty input with the exit flag down. */
    method Dispatch(text: string, gateway: Gateway) returns (status: Status, effects: seq<Effect>)
      requires !exitFlag && text != []
      modifies this
      ensures Outcome(View(), status, effects) == Iteration(old(View()), Some(text), gateway)
    {
      var word := Lower(Strip(text));
      effects := [];
      if word == "markdown" || word == "md" {
        effects := effects + [Print(Show(lastResponse))];
      }
      if word == "raw" {
        effects := effects + [ClearScreen, Print(Show(lastResponse)), Print(""), Print(Separator), Print("")];
        return Continue, effects;
      }
      if word == "clear" {
        return Continue, effects + [ClearScreen];
      }
      if word == "help" {
        return Continue, effects + [HelpPage];
      }
      if Lower(text) == "exit" || Lower(text) == "q" {
        return Ended, effects + [Print(Goodbye)];
      }
      if submitFlag {
        var shown;
        status, shown := Send(text, gateway);
        effects := effects + shown;
        return;
      }
      status := Continue;
    }

    /** One pass through `while True`. */
    method Step(g: Gesture, gateway: Gateway) returns (status: Status, effects: seq<Effect>)
      modifies this
      ensures Outcome(View(), status, effects) == StepSpec(old(View()), g, gateway)
    {
      var input := Prompt(g);
      if exitFlag {
        return Ended, [Print(Goodbye)];
      }
      if input == None || input.value == [] {
        return Continue, [];
      }
      status, effects := Dispatch(input.value, gateway);
    }

    /** The loop over a script of gestures, until it breaks, an exception escapes, or the script runs out. */
    method Run(script: seq<Gesture>, gateway: Gateway) returns (status: Status, effects: seq<Effect>)
      modifies this
      ensures Outcome(View(), status, effects) == RunSpec(old(View()), script, gateway)
    {
      status, effects := Continue, [];
      var i := 0;
      while i < |script| && status == Continue
        invariant 0 <= i <= |script|
        invariant status == Continue ==> RunSpec(old(View()), script, gateway) == Prepend(effects, RunSpec(View(), script[i..], gateway))
        invariant status != Continue ==> RunSpec(old(View()), script, gateway) == Outcome(View(), status, effects)
        decreases |script| - i
      {
        ghost var before := View();
        var shown;
        status, shown := Step(script[i], gateway);
        RunUnfolds(before, script[i..], gateway, Outcome(View(), status, shown));
        assert script[i..][1..] == script[i + 1..];
        PrependTwice(effects, shown, RunSpec(View(), script[i + 1..], gateway));
        effects := effects + shown;
        i := i + 1;
      }
    }
  }

  /** The first pass of a run, and the rest of the run after it. */
  lemma RunUnfolds(s: State, script: seq<Gesture>, gateway: Gateway, first: Outcome)
    requires script != [] && first == StepSpec(s, script[0], gateway)
    ensures first.status == Continue ==> RunSpec(s, script, gateway) == Prepend(first.effects, RunSpec(first.next, script[1..], gateway))
    ensures first.status != Continue ==> RunSpec(s, script, gateway) == first
  {
  }

  lemma PrependTwice(a: seq<Effect>, b: seq<Effect>, o: Outcome)
    ensures Prepend(a, Prepend(b, o)) == Prepend(a + b, o)
  {
  }
}
