/**
 * The interactive loop of `openai-cl.py`: each time the prompt returns, the
 * loop checks the exit flag, skips empty input, runs the commands `md`,
 * `raw`, `clear`, `help` and `exit`, and, when the submit flag is up, sends
 * the conversation to the chat-completions endpoint and records the reply.
 *
 * The endpoint is a parameter (`Gateway`): a function from the conversation
 * to what `openai.chat.completions.create` does with it, returning a
 * completion or raising an exception.  Terminal output is recorded as a list
 * of effects rather than printed.
 */
module Chat {
  import opened Wrappers
  import opened PyStr

  datatype Role = System | User | Assistant

  /** One entry of `messages`; `None` content is a reply whose message content was `None`. */
  datatype Turn = Turn(role: Role, content: Option<string>)

  /** A completion: the message content of each of its choices, in order. */
  datatype Completion = Completion(choices: seq<Option<string>>)

  /** What one call of the endpoint does: return a completion, or raise an exception whose `str()` is `error`. */
  datatype Reply = Returned(completion: Completion) | Raised(error: string)

  /** The endpoint, with the model name and the temperature of 0.7 fixed for the session. */
  type Gateway = seq<Turn> -> Reply

  /** How the prompt returns: Ctrl-Space with the buffer, Ctrl-Q, or prompt_toolkit's own accept (Esc, Enter) with the buffer. */
  datatype Gesture = CtrlSpace(buffer: string) | CtrlQ | Accept(buffer: string)

  /** What the terminal shows. */
  datatype Effect =
    | Print(line: string)       // `print(x)`
    | ClearScreen               // `os.system('clear')`
    | HelpPage                  // `display_help()`
    | Banner                    // the red `GPT:` heading
    | Markdown(source: string)  // `display_response(x)`, rendered by rich

  /** Whether the loop goes on, leaves by `break`, or dies of an uncaught exception. */
  datatype Status = Continue | Ended | Crashed(exception: string)

  /** The module-level variables the loop reads and writes; `response` is `None` while the name is unbound. */
  datatype State = State(
    messages: seq<Turn>,
    lastResponse: Option<string>,
    submitFlag: bool,
    exitFlag: bool,
    response: Option<Completion>)

  /** The state after one pass through the loop, how the loop goes on, and what was shown. */
  datatype Outcome = Outcome(next: State, status: Status, effects: seq<Effect>)

  const Goodbye := "Ending the conversation. Goodbye!"
  const ErrorPrefix := "An error occurred: "
  const IndexErrorText := "list index out of range"
  const Separator := "-------------------------"
  const NameErrorText := "NameError: name 'response' is not defined"
  const IndexErrorRaised := "IndexError: list index out of range"
  const NoResponseText := "No response to display."

  /** The state before the first prompt, after `messages` was seeded by `--software` or `--code-helper` (or left empty). */
  function Initial(seed: seq<Turn>): (s: State)
    ensures s.messages == seed && s.lastResponse == Some("")
    ensures !s.submitFlag && !s.exitFlag && s.response.None?
  {
    State(seed, Some(""), false, false, None)
  }

  /** Python's `str()` of `last_response`, which is `None` when a reply had no content. */
  function Show(x: Option<string>): string {
    match x
    case Some(v) => v
    case None => "None"
  }

  /** The key bindings: Ctrl-Space raises the submit flag and returns the buffer, Ctrl-Q raises the exit flag and returns nothing. */
  function Press(s: State, g: Gesture): (p: (State, Option<string>))
    ensures p.0.messages == s.messages && p.0.lastResponse == s.lastResponse && p.0.response == s.response
    ensures p.0.submitFlag == (s.submitFlag || g.CtrlSpace?)
    ensures p.0.exitFlag == (s.exitFlag || g.CtrlQ?)
    ensures p.1.None? <==> g.CtrlQ?
    ensures p.1.Some? ==> p.1.value == g.buffer
  {
    match g
    case CtrlSpace(b) => (s.(submitFlag := true), Some(b))
    case CtrlQ => (s.(exitFlag := true), None)
    case Accept(b) => (s, Some(b))
  }

  /** What the reply sets `last_response` to: the first choice's content, or the text of the exception caught. */
  function LastResponseOf(reply: Reply): (r: Option<string>)
    ensures r.None? <==> reply.Returned? && |reply.completion.choices| > 0 && reply.completion.choices[0].None?
    ensures reply.Returned? && |reply.completion.choices| > 0 ==> r == reply.completion.choices[0]
    ensures reply.Raised? ==> r == Some(ErrorPrefix + reply.error)
    ensures !(reply.Returned? && |reply.completion.choices| > 0) ==> r.Some? && ErrorPrefix <= r.value
  {
    match reply
    case Returned(c) => if |c.choices| > 0 then c.choices[0] else Some(ErrorPrefix + IndexErrorText)
    case Raised(e) => Some(ErrorPrefix + e)
  }

  /** How the reply is displayed: between a blank line and the banner, and a closing blank line, always rendered as its `str()`. */
  function ReplyEffects(last: Option<string>): (r: seq<Effect>)
    ensures |r| >= 4 && r[0] == Print("") && r[1] == Banner && r[|r| - 1] == Print("")
    ensures r[|r| - 2] == Markdown(Show(last))
    ensures Print(NoResponseText) in r <==> last.None?
  {
    [Print(""), Banner]
    + (if last.Some? then [Markdown(last.value)] else [Print(NoResponseText), Markdown("None")])
    + [Print("")]
  }

  /**
   * Submitting `text`: the user turn is appended, the endpoint is called on
   * the conversation that now ends with it, and `last_response` and, when a
   * completion came back, `response` are set.  The assistant turn is then
   * read from `response`, which after a failed call is the previous
   * completion, or is unbound.
   */
  function Submit(s: State, text: string, gateway: Gateway): (o: Outcome)
    ensures |o.next.messages| > |s.messages|
    ensures o.next.messages[..|s.messages| + 1] == s.messages + [Turn(User, Some(text))]
    ensures o.next.lastResponse == LastResponseOf(gateway(s.messages + [Turn(User, Some(text))]))
    ensures !o.next.submitFlag && o.next.exitFlag == s.exitFlag
    ensures o.effects == ReplyEffects(o.next.lastResponse)
  {
    var sent := s.messages + [Turn(User, Some(text))];
    var reply := gateway(sent);
    var last := LastResponseOf(reply);
    var response := if reply.Returned? then Some(reply.completion) else s.response;
    var shown := ReplyEffects(last);
    var s' := State(sent, last, false, s.exitFlag, response);
    match response
    case None => Outcome(s', Crashed(NameErrorText), shown)
    case Some(c) =>
      if |c.choices| == 0 then Outcome(s', Crashed(IndexErrorRaised), shown)
      else Outcome(s'.(messages := sent + [Turn(Assistant, c.choices[0])]), Continue, shown)
  }

  /** The body of `while True`, after the prompt returned `input`. */
  function Iteration(s: State, input: Option<string>, gateway: Gateway): (o: Outcome)
    ensures o.next.exitFlag == s.exitFlag
    ensures s.messages <= o.next.messages && |o.next.messages| <= |s.messages| + 2
  {
    if s.exitFlag then Outcome(s, Ended, [Print(Goodbye)])
    else if input.None? || input.value == [] then Outcome(s, Continue, [])
    else
      var text := input.value;
      var word := Lower(Strip(text));
      var echoed := if word == "markdown" || word == "md" then [Print(Show(s.lastResponse))] else [];
      if word == "raw" then
        Outcome(s, Continue, echoed + [ClearScreen, Print(Show(s.lastResponse)), Print(""), Print(Separator), Print("")])
      else if word == "clear" then Outcome(s, Continue, echoed + [ClearScreen])
      else if word == "help" then Outcome(s, Continue, echoed + [HelpPage])
      else if Lower(text) == "exit" || Lower(text) == "q" then Outcome(s, Ended, echoed + [Print(Goodbye)])
      else if s.submitFlag then
        var o := Submit(s, text, gateway);
        o.(effects := echoed + o.effects)
      else Outcome(s, Continue, echoed)
  }

  /** One turn of the loop: a gesture at the prompt, then the body. */
  function StepSpec(s: State, g: Gesture, gateway: Gateway): (o: Outcome)
    ensures o.next.exitFlag == (s.exitFlag || g.CtrlQ?)
    ensures o.next.exitFlag ==> o.status == Ended && o.next.messages == s.messages
    ensures s.messages <= o.next.messages && |o.next.messages| <= |s.messages| + 2
  {
    var p := Press(s, g);
    Iteration(p.0, p.1, gateway)
  }

  function Prepend(effects: seq<Effect>, o: Outcome): Outcome {
    o.(effects := effects + o.effects)
  }

  /** The loop over a script of gestures: it stops at the first `break` or exception, or when the script runs out. */
  function RunSpec(s: State, script: seq<Gesture>, gateway: Gateway): (o: Outcome)
    ensures s.messages <= o.next.messages
    ensures s.exitFlag && script != [] ==> o.status == Ended && o.next.messages == s.messages
    decreases |script|
  {
    if script == [] then Outcome(s, Continue, [])
    else
      var o := StepSpec(s, script[0], gateway);
      if o.status.Continue? then Prepend(o.effects, RunSpec(o.next, script[1..], gateway))
      else o
  }

  /** Input that reaches the submit branch: not after Ctrl-Q, not empty, no command, and the submit flag up. */
  predicate Submits(s: State, input: Option<string>)
    ensures Submits(s, input) ==> input.Some? && (Lower(Strip(input.value)) in {"exit", "q"} ==> Strip(input.value) != input.value)
  {
    && !s.exitFlag && input.Some? && input.value != []
    && Lower(Strip(input.value)) !in {"raw", "clear", "help"}
    && Lower(input.value) !in {"exit", "q"}
    && s.submitFlag
  }

  /** Once the exit flag is up, the loop ends before it looks at the input. */
  lemma ExitFlagFirst(s: State, input: Option<string>, gateway: Gateway)
    requires s.exitFlag
    ensures Iteration(s, input, gateway) == Outcome(s, Ended, [Print(Goodbye)])
  {
  }

  /** Ctrl-Q ends the session whatever the buffer held, and changes nothing else. */
  lemma CtrlQEnds(s: State, gateway: Gateway)
    ensures StepSpec(s, CtrlQ, gateway) == Outcome(s.(exitFlag := true), Ended, [Print(Goodbye)])
  {
  }

  /** Empty input, or none, is skipped: nothing changes and nothing is shown. */
  lemma EmptyInputSkipped(s: State, input: Option<string>, gateway: Gateway)
    requires !s.exitFlag && (input.None? || input.value == [])
    ensures Iteration(s, input, gateway) == Outcome(s, Continue, [])
  {
  }

  /** `raw`, `clear` and `help` (in any case, with any surrounding whitespace) change no state; `raw` shows the last reply unrendered. */
  lemma CommandsKeepState(s: State, text: string, gateway: Gateway)
    requires !s.exitFlag && text != []
    requires Lower(Strip(text)) in {"raw", "clear", "help"}
    ensures Iteration(s, Some(text), gateway).next == s
    ensures Iteration(s, Some(text), gateway).status == Continue
    ensures Lower(Strip(text)) == "raw" ==> Print(Show(s.lastResponse)) in Iteration(s, Some(text), gateway).effects
  {
  }

  /** A word that `lower()` maps to `exit` or `q` has no whitespace around it, so it is not also a command. */
  lemma ExitWordIsNoCommand(text: string)
    requires Lower(text) in {"exit", "q"}
    ensures text != [] && Lower(Strip(text)) == Lower(text)
  {
    StripOfLowerWord(text, Lower(text));
  }

  /**
   * `md` and `markdown` print the last reply and then fall through: with the
   * submit flag up the word itself is sent to the endpoint as a message.
   */
  lemma MarkdownFallsThrough(s: State, text: string, gateway: Gateway)
    requires !s.exitFlag && text != []
    requires Lower(Strip(text)) in {"markdown", "md"}
    ensures s.submitFlag ==> Iteration(s, Some(text), gateway) == Prepend([Print(Show(s.lastResponse))], Submit(s, text, gateway))
    ensures !s.submitFlag ==> Iteration(s, Some(text), gateway) == Outcome(s, Continue, [Print(Show(s.lastResponse))])
  {
    assert Lower(text) != "exit" && Lower(text) != "q" by {
      if Lower(text) in {"exit", "q"} {
        ExitWordIsNoCommand(text);
      }
    }
  }

  /** The loop leaves by `break` exactly after Ctrl-Q or on input whose `lower()` is `exit` or `q`; the input is not stripped first. */
  lemma EndsIff(s: State, input: Option<string>, gateway: Gateway)
    requires !s.exitFlag
    ensures Iteration(s, input, gateway).status == Ended <==> input.Some? && Lower(input.value) in {"exit", "q"}
    ensures Iteration(s, input, gateway).status == Ended ==> Iteration(s, input, gateway).next == s
  {
    if input.Some? && Lower(input.value) in {"exit", "q"} {
      ExitWordIsNoCommand(input.value);
    }
  }

  /** ` exit`, with a leading space, is not the exit command: with the submit flag up it is sent as a message. */
  lemma PaddedExitIsSubmitted(s: State, gateway: Gateway)
    requires !s.exitFlag && s.submitFlag
    ensures Iteration(s, Some(" exit"), gateway) == Submit(s, " exit", gateway)
  {
    assert Lower(" exit") == " exit";
    assert Strip(" exit") == "exit" by {
      assert SpaceRunFrom(" exit", 0) == 1;
      assert SpaceRunBack(" exit", 1, 5) == 5;
    }
    assert Lower("exit") == "exit";
  }

  /** Whitespace-only input is not caught by the emptiness check: with the submit flag up it is sent as a message. */
  lemma BlankInputSubmitted(s: State, text: string)
    requires !s.exitFlag && s.submitFlag && text != [] && AllSpace(text)
    ensures Submits(s, Some(text))
  {
    assert Strip(text) == [];
    if Lower(text) in {"exit", "q"} {
      ExitWordIsNoCommand(text);
      StripOfLowerWord(text, Lower(text));
      assert false;
    }
  }

  /** A user turn is appended exactly when the input reaches the submit branch; otherwise the state is as it was, and the endpoint is not consulted. */
  lemma SubmitsIff(s: State, input: Option<string>, gateway: Gateway, other: Gateway)
    ensures Submits(s, input) ==> Iteration(s, input, gateway).next.messages[|s.messages|] == Turn(User, input)
    ensures Submits(s, input) ==> !Iteration(s, input, gateway).next.submitFlag
    ensures !Submits(s, input) ==> Iteration(s, input, gateway).next == s
    ensures !Submits(s, input) ==> Iteration(s, input, gateway) == Iteration(s, input, other)
  {
  }

  /** On input that reaches the submit branch, the pass is the submission, preceded by nothing but the `md` echo. */
  lemma SubmitTakesOver(s: State, input: Option<string>, gateway: Gateway)
    requires Submits(s, input)
    ensures Iteration(s, input, gateway).next == Submit(s, input.value, gateway).next
    ensures Iteration(s, input, gateway).status == Submit(s, input.value, gateway).status
  {
  }

  /** A completion with a choice: the user turn and the first choice are appended, and that choice becomes the last reply. */
  lemma SuccessfulExchange(s: State, text: string, gateway: Gateway, c: Completion)
    requires gateway(s.messages + [Turn(User, Some(text))]) == Returned(c) && |c.choices| > 0
    ensures Submit(s, text, gateway).next.messages == s.messages + [Turn(User, Some(text)), Turn(Assistant, c.choices[0])]
    ensures Submit(s, text, gateway).next.lastResponse == c.choices[0]
    ensures Submit(s, text, gateway).next.response == Some(c)
    ensures Submit(s, text, gateway).status == Continue
  {
  }

  /**
   * A raised exception: the last reply is the error text, and the assistant
   * turn appended is the previous completion's first choice, or the loop dies
   * of a `NameError` when no completion was ever received.
   */
  lemma FailedExchange(s: State, text: string, gateway: Gateway, error: string)
    requires gateway(s.messages + [Turn(User, Some(text))]) == Raised(error)
    ensures Submit(s, text, gateway).next.lastResponse == Some(ErrorPrefix + error)
    ensures Submit(s, text, gateway).next.response == s.response
    ensures s.response.None? ==> Submit(s, text, gateway).status == Crashed(NameErrorText)
    ensures s.response.None? ==> Submit(s, text, gateway).next.messages == s.messages + [Turn(User, Some(text))]
    ensures s.response.Some? && |s.response.value.choices| > 0 ==>
      && Submit(s, text, gateway).status == Continue
      && Submit(s, text, gateway).next.messages == s.messages + [Turn(User, Some(text)), Turn(Assistant, s.response.value.choices[0])]
  {
  }

  /** A completion with no choices: `IndexError` is caught once (its text becomes the last reply) and then raised again, uncaught. */
  lemma EmptyCompletion(s: State, text: string, gateway: Gateway)
    requires gateway(s.messages + [Turn(User, Some(text))]) == Returned(Completion([]))
    ensures Submit(s, text, gateway).next.lastResponse == Some(ErrorPrefix + IndexErrorText)
    ensures Submit(s, text, gateway).status == Crashed(IndexErrorRaised)
    ensures Submit(s, text, gateway).next.messages == s.messages + [Turn(User, Some(text))]
  {
  }

  /** Ctrl-Space on a command or on an empty buffer leaves the submit flag up, so the next accepted input is sent. */
  lemma FlagOutlivesCommand(s: State, buffer: string, gateway: Gateway)
    requires !s.exitFlag
    requires buffer == [] || Lower(Strip(buffer)) in {"raw", "clear", "help"}
    ensures StepSpec(s, CtrlSpace(buffer), gateway).next == s.(submitFlag := true)
  {
  }

  /** Turns that alternate user, assistant, user, assistant, …: whole exchanges. */
  ghost predicate Exchanges(turns: seq<Turn>) {
    |turns| % 2 == 0 && forall k :: 0 <= k < |turns| ==> turns[k].role == (if k % 2 == 0 then User else Assistant)
  }

  /** A pass of the loop that goes on adds whole exchanges (none or one) to the conversation. */
  lemma StepAddsExchanges(s: State, g: Gesture, gateway: Gateway)
    requires StepSpec(s, g, gateway).status.Continue?
    ensures s.messages <= StepSpec(s, g, gateway).next.messages
    ensures Exchanges(StepSpec(s, g, gateway).next.messages[|s.messages|..])
  {
    var p := Press(s, g);
    var o := StepSpec(s, g, gateway);
    if Submits(p.0, p.1) {
      var m := o.next.messages;
      assert |m| == |s.messages| + 2;
      assert m[|s.messages|..] == [m[|s.messages|], m[|s.messages| + 1]];
      SubmitsIff(p.0, p.1, gateway, gateway);
    } else {
      SubmitsIff(p.0, p.1, gateway, gateway);
      assert o.next.messages[|s.messages|..] == [];
    }
  }

  lemma {:induction false} ExchangesAppend(a: seq<Turn>, b: seq<Turn>)
    requires Exchanges(a) && Exchanges(b)
    ensures Exchanges(a + b)
  {
  }

  /** A run that has not ended has grown the conversation by whole exchanges only. */
  lemma {:induction false} RunAddsExchanges(s: State, script: seq<Gesture>, gateway: Gateway)
    requires RunSpec(s, script, gateway).status.Continue?
    ensures s.messages <= RunSpec(s, script, gateway).next.messages
    ensures Exchanges(RunSpec(s, script, gateway).next.messages[|s.messages|..])
    decreases |script|
  {
    if script == [] {
      assert s.messages[|s.messages|..] == [];
    } else {
      var o := StepSpec(s, script[0], gateway);
      StepAddsExchanges(s, script[0], gateway);
      RunAddsExchanges(o.next, script[1..], gateway);
      var m := RunSpec(s, script, gateway).next.messages;
      assert m[|s.messages|..] == o.next.messages[|s.messages|..] + m[|o.next.messages|..];
      ExchangesAppend(o.next.messages[|s.messages|..], m[|o.next.messages|..]);
    }
  }

  /**
   * After one answered message and one failed call, the first answer is
   * appended a second time, as if it answered the new message, and the last
   * reply is the error text.
   */
  lemma StaleReplyRepeated(s: State, u1: string, u2: string, gateway: Gateway, c: Completion, error: string)
    requires Submits(s.(submitFlag := true), Some(u1)) && Submits(s.(submitFlag := true), Some(u2))
    requires gateway(s.messages + [Turn(User, Some(u1))]) == Returned(c) && |c.choices| > 0
    requires gateway(s.messages + [Turn(User, Some(u1)), Turn(Assistant, c.choices[0]), Turn(User, Some(u2))]) == Raised(error)
    ensures RunSpec(s, [CtrlSpace(u1), CtrlSpace(u2)], gateway).status == Continue
    ensures RunSpec(s, [CtrlSpace(u1), CtrlSpace(u2)], gateway).next.messages
         == s.messages + [Turn(User, Some(u1)), Turn(Assistant, c.choices[0]), Turn(User, Some(u2)), Turn(Assistant, c.choices[0])]
    ensures RunSpec(s, [CtrlSpace(u1), CtrlSpace(u2)], gateway).next.lastResponse == Some(ErrorPrefix + error)
  {
    SubmittedStep(s, u1, gateway);
    SuccessfulExchange(s.(submitFlag := true), u1, gateway, c);
    var s2 := StepSpec(s, CtrlSpace(u1), gateway).next;
    assert s2.messages + [Turn(User, Some(u2))] == s.messages + [Turn(User, Some(u1)), Turn(Assistant, c.choices[0]), Turn(User, Some(u2))];
    SubmitsOnFlags(s.(submitFlag := true), s2.(submitFlag := true), Some(u2));
    SubmittedStep(s2, u2, gateway);
    FailedExchange(s2.(submitFlag := true), u2, gateway, error);
    RunOfTwo(s, CtrlSpace(u1), CtrlSpace(u2), gateway);
  }

  /** Ctrl-Space on a message: the pass is its submission. */
  lemma SubmittedStep(s: State, u: string, gateway: Gateway)
    requires Submits(s.(submitFlag := true), Some(u))
    ensures StepSpec(s, CtrlSpace(u), gateway).next == Submit(s.(submitFlag := true), u, gateway).next
    ensures StepSpec(s, CtrlSpace(u), gateway).status == Submit(s.(submitFlag := true), u, gateway).status
  {
    SubmitTakesOver(s.(submitFlag := true), Some(u), gateway);
  }

  /** Whether input reaches the submit branch depends on the two flags only. */
  lemma SubmitsOnFlags(s: State, t: State, input: Option<string>)
    requires s.exitFlag == t.exitFlag && s.submitFlag == t.submitFlag
    ensures Submits(s, input) == Submits(t, input)
  {
  }

  /** A run of two gestures whose passes both go on ends where the second pass leaves it. */
  lemma RunOfTwo(s: State, g1: Gesture, g2: Gesture, gateway: Gateway)
    ensures StepSpec(s, g1, gateway).status == Continue && StepSpec(StepSpec(s, g1, gateway).next, g2, gateway).status == Continue ==>
      && RunSpec(s, [g1, g2], gateway).status == Continue
      && RunSpec(s, [g1, g2], gateway).next == StepSpec(StepSpec(s, g1, gateway).next, g2, gateway).next
  {
    var o1 := StepSpec(s, g1, gateway);
    var o2 := StepSpec(o1.next, g2, gateway);
    if o1.status == Continue && o2.status == Continue {
      assert [g1, g2][1..] == [g2] && [g2][1..] == [];
      assert RunSpec(o1.next, [g2], gateway) == Prepend(o2.effects, RunSpec(o2.next, [], gateway));
      assert RunSpec(s, [g1, g2], gateway) == Prepend(o1.effects, RunSpec(o1.next, [g2], gateway));
    }
  }

  /** When the first call fails, the loop dies of a `NameError`: `response` was never bound. */
  lemma FirstFailureCrashes(seed: seq<Turn>, text: string, gateway: Gateway)
    requires Submits(Initial(seed).(submitFlag := true), Some(text))
    requires gateway(seed + [Turn(User, Some(text))]).Raised?
    ensures StepSpec(Initial(seed), CtrlSpace(text), gateway).status == Crashed(NameErrorText)
  {
  }

  /** A plain lower-case word that is no command reaches the submit branch when the flag is up. */
  lemma SubmitsPlainWord(s: State, w: string)
    requires !s.exitFlag && s.submitFlag && w != []
    requires forall k :: 0 <= k < |w| ==> 'a' <= w[k] <= 'z'
    requires w !in {"raw", "clear", "help", "exit", "q", "md", "markdown"}
    ensures Submits(s, Some(w))
  {
    assert Lower(w) == w;
    StripOfLowerWord(w, w);
  }
}
