# openai-cl: the chat loop and the code-fence highlighter, in Dafny

`openai-cl.py` is an interactive terminal client for a chat-completions
endpoint. This project models the two pieces of it that hold logic.

- **The chat loop** (`openai-cl.py`, lines 279-390). Two key bindings raise flags:
  - Ctrl-Space raises `submit_flag`.
  - Ctrl-Q raises `exit_flag`.

  Each pass of `while True` then does the following, in this order:
  - ends the session when the exit flag is up;
  - skips empty input;
  - echoes the last reply for `md`/`markdown`;
  - handles the commands `raw`, `clear` and `help`;
  - ends the session on `exit`/`q`;
  - when the submit flag is up, appends the user turn, calls the endpoint, records the reply and appends the assistant turn.

  The chat loop is modelled twice:
  - **As values.** Module `Chat` gives `Iteration`, `StepSpec` and `RunSpec` over a `State` datatype, with the lemmas.
  - **Imperatively.** Module `ChatLoop` has a `Session` class. Its fields are the script's globals: `messages`, `last_response`, `submit_flag`, `exit_flag`, and the Python name `response`. Its `Step` and `Run` methods are written statement by statement after the loop and proved equal to `StepSpec` and `RunSpec`.
- **`highlight_code_blocks`** (`openai-cl.py`, lines 170-199). This is pure, in module `CodeFence`:
  - `re.sub` with the lazy, DOTALL pattern ```` ```(.*?)``` ```` is written out as a scan.
  - `Scan` splits the reply into prose and block bodies. It is characterized exactly: a segmentation is the scan of `t` if and only if it has the shape a left-most lazy match produces and reads back as `t`.
  - The body of each block is stripped and split into an optional language line and code.
  - Pygments is a parameter: a function from code and lexer choice to highlighted text.
- Python's `str.strip`, `str.lower` and `str.isalnum` are in module `PyStr`, and `Option` is in `Wrappers`.

The chat-completions endpoint is a parameter `Gateway`. It is a function from the conversation sent to the reply:
- a completion, given as the content of each choice; or
- a raised exception, given as its `str()`.

The model name and the temperature are fixed for a session, so they are part of that function. Output goes to the terminal as a list of `Effect`s: lines printed, screen clears, the help page, the `GPT:` banner and Markdown renderings.

The model follows the code, including these behaviours a reader might not expect from the program's help text:
- Whitespace-only input is not a no-op: with the submit flag up it is sent (`Chat.BlankInputSubmitted`).
- `exit`/`q` is compared after `lower()` only, without stripping (`Chat.EndsIff`, `Chat.PaddedExitIsSubmitted`).
- `md`/`markdown` prints the last reply and then falls through to submission (`Chat.MarkdownFallsThrough`).
- A failed call does leave the conversation changed, in one of two ways (`Chat.FailedExchange`, `Chat.StaleReplyRepeated`, `Chat.FirstFailureCrashes`):
  - the previous completion's first choice is appended again as the assistant turn;
  - or, if no completion was ever received, the loop dies of a `NameError`.
- A completion with no choices is also followed to the end (`Chat.EmptyCompletion`):
  - its `IndexError` is caught once, and its text becomes the last reply;
  - the same `IndexError` is then raised again, uncaught, at line 390.

## Model

| member | source | states |
|---|---|---|
| PyStr.Strip | openai-cl.py:320 | the result is no longer than the input, starts and ends with a non-space (Python's `isspace` set), and is empty exactly when the input is all whitespace |
| PyStr.StripCutsEnds | openai-cl.py:320 | the result is the input with a whitespace prefix and a whitespace suffix cut off |
| PyStr.Lower | openai-cl.py:320-340 | `lower()` keeps the length of the string, mapping `A`-`Z` and the Kelvin sign to ASCII lower case |
| PyStr.LowerCharOnto | openai-cl.py:320-340 | only an ASCII letter, its upper-case form, or the Kelvin sign (for `k`) lowers to an ASCII lower-case letter, so comparing `lower()` with a command word is exact |
| PyStr.StripOfLowerWord | openai-cl.py:340 | a string whose `lower()` is a word of ASCII letters is left unchanged by `strip()` |
| CodeFence.FindFence | openai-cl.py:172 | the first index at or after `from` where three backticks start, or none when there is no such index |
| CodeFence.NextPair | openai-cl.py:172 | the next lazy match: the first fence, then the first fence at least three characters after it, with no fence in between; none when no pair of fences is left |
| CodeFence.Scan | openai-cl.py:172-197 | the reply is cut into no pieces exactly when it is empty; its exact characterization is `CodeFence.ScanCharacterized` |
| CodeFence.ScanRestoresText | openai-cl.py:197 | putting the fences back around each block of the scan gives the reply back, so prose and block bodies are kept verbatim |
| CodeFence.MatchIsLazy | openai-cl.py:172 | the prose before the first match, and its body, hold no fence, not even one that runs into the following fence |
| CodeFence.ScanIsCanonical | openai-cl.py:172 | the scan has the shape of left-most, lazy, non-overlapping matching: no empty prose, prose only before a block or at the end, no fence inside a body or in the prose before a block, no complete pair in the closing prose |
| CodeFence.ScanOfMatch | openai-cl.py:197 | text made of fence-free prose, a fenced body without a fence, and a rest scans to that prose, that block, and the scan of the rest |
| CodeFence.ScanWithoutPair | openai-cl.py:197 | text with no complete pair of fences is one piece of prose (or nothing) |
| CodeFence.ScanOfCanonical | openai-cl.py:197 | every segmentation of canonical shape is the scan of the text it reads back as |
| CodeFence.ScanCharacterized | openai-cl.py:170-199 | the scan of `t` equals `segs` exactly when `segs` is canonical and reads back as `t` |
| CodeFence.IndexOf | openai-cl.py:179 | the index of the first occurrence of a character, or none when it does not occur |
| CodeFence.SplitFirstLine | openai-cl.py:177-185 | a language is taken exactly when a first line followed by a newline is alphanumeric, and then the stripped body is that language, a newline and the code; otherwise no language and the code is the whole stripped body, and no line ending at a newline is alphanumeric |
| CodeFence.SplitHeader | openai-cl.py:176-185 | after `strip()`, a named language is alphanumeric and the stripped body is that language, a newline and the code; with no language the code is the whole stripped body |
| CodeFence.FirstLineUnique | openai-cl.py:178-185 | in a stripped body that starts with an alphanumeric line and a newline, that line is the only alphanumeric one ending at a newline |
| CodeFence.ChooseLexer | openai-cl.py:187-191 | the lexer is looked up by name exactly when a language was named, and by that name; otherwise it is guessed |
| CodeFence.Highlighted | openai-cl.py:175-194 | when a line of the stripped body ending at a newline is alphanumeric, the code after it is highlighted by the lexer that line names; when no such line exists, the whole stripped body is highlighted by a guessed lexer |
| CodeFence.Render | openai-cl.py:197 | a segmentation made of prose only renders as its own text |
| CodeFence.HighlightCodeBlocks | openai-cl.py:170-199 | a reply with no complete pair of fences comes back unchanged |
| CodeFence.FirstBlockHighlighted | openai-cl.py:175-197 | the first block is replaced by the highlighter's output on its split header, the prose before it is kept, and the rest of the reply is processed from just after the closing fence |
| CodeFence.UnpairedFenceKept | openai-cl.py:172-197 | for any text `p` and `u`, an opening fence between them is left in the text when no other fence lies wholly inside `p`, wholly inside `u`, or runs from `p` into it; the whole reply comes back unchanged |
| Chat.Initial | openai-cl.py:293-296 | before the first prompt both flags are down, `last_response` is the empty string, `response` is unbound and `messages` is the seed |
| Chat.Press | openai-cl.py:279-290 | Ctrl-Space raises the submit flag and returns the buffer; Ctrl-Q raises the exit flag and returns nothing; nothing else changes |
| Chat.LastResponseOf | openai-cl.py:356-366 | `last_response` is `None` exactly when the first choice's content is `None`; a choice's content is taken as it is; any failure is shown as text starting `An error occurred: `, with the exception's text for a raised one |
| Chat.ReplyEffects | openai-cl.py:377-387 | the reply is shown after a blank line and the banner and before a closing blank line, always rendered as `str(last_response)`; the no-response line appears exactly when it is `None` |
| Chat.Submit | openai-cl.py:345-390 | the submit flag is lowered; exactly one user turn with the unmodified text is appended; the endpoint sees the conversation ending with that turn; `last_response` is what its reply gives; the reply's display is shown |
| Chat.Iteration | openai-cl.py:312-390 | one pass never changes the exit flag, only appends to `messages`, and appends at most two turns |
| Chat.StepSpec | openai-cl.py:298-390 | one pass raises the exit flag exactly on Ctrl-Q and never lowers it; with the flag up the session ends with `messages` unchanged; `messages` is only appended to, by at most two turns |
| Chat.RunSpec | openai-cl.py:298-390 | however a run ends, the conversation it started with is a prefix of the one it leaves; once the exit flag is up the next pass ends the run with `messages` unchanged |
| Chat.Submits | openai-cl.py:312-345 | input that reaches the submit branch and strips to `exit` or `q` must have had whitespace around it |
| Chat.ExitFlagFirst | openai-cl.py:312-315 | with the exit flag up the pass ends the session before looking at the input, with the state unchanged |
| Chat.CtrlQEnds | openai-cl.py:286-315 | Ctrl-Q ends the session whatever the buffer holds, with only the exit flag changed |
| Chat.EmptyInputSkipped | openai-cl.py:317-318 | empty or absent input changes nothing and shows nothing |
| Chat.CommandsKeepState | openai-cl.py:323-337 | `raw`, `clear` and `help`, after `strip().lower()`, leave the whole state unchanged and continue; `raw` prints the last reply |
| Chat.ExitWordIsNoCommand | openai-cl.py:320-340 | input whose `lower()` is `exit` or `q` is not empty and its `strip().lower()` is the same word, so no command branch catches it first |
| Chat.MarkdownFallsThrough | openai-cl.py:320-321 | `md`/`markdown` prints the last reply and then, with the submit flag up, is submitted as a message; with the flag down nothing changes |
| Chat.EndsIff | openai-cl.py:339-342 | with the exit flag down, the pass ends the session exactly when the input's `lower()` (not stripped) is `exit` or `q`, and then the state is unchanged |
| Chat.PaddedExitIsSubmitted | openai-cl.py:340 | ` exit` with a leading space is sent as a message, not taken as the exit command |
| Chat.BlankInputSubmitted | openai-cl.py:317-349 | whitespace-only input gets past the emptiness check and is submitted when the flag is up |
| Chat.SubmitsIff | openai-cl.py:344-349 | a user turn holding the input is appended and the flag lowered exactly on input that reaches the submit branch; on any other input the state is unchanged and the endpoint's behaviour does not matter |
| Chat.SubmitTakesOver | openai-cl.py:344-390 | on input that reaches the submit branch, the new state and the status are those of the submission |
| Chat.SuccessfulExchange | openai-cl.py:357-390 | a completion with a choice: `messages` grows by exactly the user turn and an assistant turn with the first choice's content, which is also the new last reply, and the loop goes on |
| Chat.FailedExchange | openai-cl.py:365-390 | a raised exception: the last reply is `An error occurred: ` and the error text; `response` keeps its old binding; if unbound the loop dies of a `NameError` after the user turn, otherwise the old first choice is appended again |
| Chat.EmptyCompletion | openai-cl.py:364-390 | a completion with no choices: the last reply is the text of the caught `IndexError`, and the loop dies of the `IndexError` raised again at line 390 after the user turn |
| Chat.FlagOutlivesCommand | openai-cl.py:279-337 | Ctrl-Space on an empty buffer or a command leaves the submit flag up and nothing else changed |
| Chat.StepAddsExchanges | openai-cl.py:298-390 | a pass that goes on appends only whole exchanges (a user turn followed by an assistant turn), if any |
| Chat.RunAddsExchanges | openai-cl.py:298-390 | a run that has not ended has grown the conversation by alternating user and assistant turns only |
| Chat.StaleReplyRepeated | openai-cl.py:298-390 | from any state, for any two messages sent with Ctrl-Space, when the endpoint answers the first with a choice and raises on the second: the run goes on, `messages` gains the first message, its answer, the second message and the first answer again, and the last reply is the error text |
| Chat.SubmittedStep | openai-cl.py:279-390 | Ctrl-Space on a message makes the pass the submission of that message |
| Chat.SubmitsOnFlags | openai-cl.py:312-345 | whether input reaches the submit branch depends only on the two flags, not on the conversation |
| Chat.RunOfTwo | openai-cl.py:298 | two passes that both go on leave the run where the second leaves it |
| Chat.SubmitsPlainWord | openai-cl.py:317-345 | a non-empty lower-case ASCII word that is no command reaches the submit branch when the submit flag is up and the exit flag down |
| Chat.FirstFailureCrashes | openai-cl.py:356-390 | when the very first call raises, the loop dies of a `NameError` |
| ChatLoop.Session.constructor | openai-cl.py:293-296 | the fields start as `Chat.Initial` of the seed |
| ChatLoop.Session.OnCtrlSpace | openai-cl.py:279-283 | raises the submit flag, changes nothing else, returns the buffer |
| ChatLoop.Session.OnCtrlQ | openai-cl.py:286-290 | raises the exit flag, changes nothing else, returns nothing |
| ChatLoop.Session.Prompt | openai-cl.py:299-309 | the fields and the returned input are those `Chat.Press` gives |
| ChatLoop.Session.Send | openai-cl.py:345-390 | the new fields, status and effects are those of `Chat.Submit` |
| ChatLoop.Session.Dispatch | openai-cl.py:320-390 | on non-empty input with the exit flag down, the new fields, status and effects are those of `Chat.Iteration` |
| ChatLoop.Session.Step | openai-cl.py:298-390 | the new fields, status and effects are those of `Chat.StepSpec` |
| ChatLoop.Session.Run | openai-cl.py:298-390 | the new fields, status and effects of the whole loop are those of `Chat.RunSpec` |

## Left out

- PyStr.Lower: maps `A`-`Z` and the Kelvin sign (to `k`) and leaves every other character as it is. Python's `str.lower()` also folds other non-ASCII letters, and a few of them, such as `İ`, lower to two characters. None of those lowers to an ASCII letter, so each comparison of `lower()` with a command word comes out as in Python.
- PyStr.IsAlnum: accepts only ASCII letters and digits. Python's `str.isalnum()` also accepts other Unicode letters and digits as a language name.
- The terminal itself is not modelled. This covers:
  - the title escape, `display_intro` and the text of `display_help`;
  - `os.system('clear')`;
  - rich's Markdown rendering and `print_formatted_text`.

  These are recorded as `Effect`s, not as output.
- The Halo spinner is not modelled. It is a concurrent animation thread with no effect on the state.
- The network call `openai.chat.completions.create` is not modelled: its model name and its `temperature=0.7` float are fixed inside the `Gateway` parameter. An exception is represented only by its `str()`.
- Command-line parsing, the API key, the model list and the intro are configuration done before the loop starts.
- `get_software_info` and `get_file_content` run subprocesses and read files. Their only effect on the loop is the seed of `messages`, which is the constructor's parameter.
- Ctrl-C and Ctrl-D at the prompt are not modelled. They raise `KeyboardInterrupt`/`EOFError`, which the loop does not catch.
- Editing in the prompt is not modelled: a `Gesture` carries the finished buffer.
- Pygments is not modelled: lexer lookup, lexer guessing and highlighting are the `Highlighter` parameter, which is total. `get_lexer_by_name` raising for an unknown language is therefore not modelled.
- `highlight_code_blocks` is defined in the source but never called by the loop, which renders replies with rich instead. The two parts of the model are independent for that reason.
- Python's regular-expression engine is not modelled. `CodeFence.Scan` is a definition of what the lazy DOTALL pattern matches, characterized by `CodeFence.ScanCharacterized`, not a derivation from the engine.
- `openai-cl-talktoman.py`, `openai-keyset.py` and `openai-models.py` are not modelled. The first two are `while True` loops of prompt, network call and print, with no flags and no commands; `openai-cl-talktoman.py` also ends its loop on input whose `lower()` is `exit`. Each pass appends a user turn and then an assistant turn, as `Chat.SuccessfulExchange` does. `openai-models.py` lists the models once.
