/**
 * The read-eval loop of `main` (agent.py). The lines the user types are a
 * parameter, read in order; the agent, which is library code that keeps
 * its own memory, is a parameter too: a function from the inputs already
 * sent and the new input to what the call returned or raised.
 */
module Session {
  import opened Text

  /** What one input line asks for. */
  datatype Command = Quit | Skip | Turn(input: string)

  /** The words that end the session, compared after trimming and lower-casing. */
  predicate IsQuitWord(w: string) {
    w == "quit" || w == "exit" || w == "q"
  }

  /**
   * A line is trimmed; a quit word in any case ends the session, an empty
   * line is skipped, and anything else is sent to the agent, trimmed.
   */
  function Classify(line: string): (c: Command)
    ensures c.Turn? ==> c.input != []
  {
    var input := Strip(line);
    if IsQuitWord(LowerStr(input)) then Quit
    else if input == [] then Skip
    else Turn(input)
  }

  /** The three outcomes, each exactly when the source's test for it holds on the trimmed line. */
  lemma ClassifyCases(line: string)
    ensures Classify(line) == Quit <==> IsQuitWord(LowerStr(Strip(line)))
    ensures Classify(line) == Skip <==> Strip(line) == []
    ensures Classify(line).Turn? <==> !IsQuitWord(LowerStr(Strip(line))) && Strip(line) != []
  {
    if Strip(line) == [] {
      assert LowerStr(Strip(line)) == [];
    }
  }

  /** A turn's input is the line without its surrounding whitespace. */
  lemma TurnIsTrimmed(line: string)
    requires Classify(line).Turn?
    ensures var input := Classify(line).input;
            !IsSpace(input[0]) && !IsSpace(input[|input| - 1])
            && exists i, j :: 0 <= i <= j <= |line| && input == line[i..j] && AllSpace(line[..i]) && AllSpace(line[j..])
  {
    StripCuts(line);
  }

  /** Whitespace around a line changes nothing. */
  lemma ClassifyIgnoresPadding(a: string, line: string, b: string)
    requires AllSpace(a) && AllSpace(b)
    ensures Classify(a + line + b) == Classify(line)
  {
    StripIgnoresPadding(a, line, b);
  }

  /** A quit word ends the session whatever its case and padding. */
  lemma QuitInAnyCase(a: string, word: string, b: string)
    requires AllSpace(a) && AllSpace(b)
    requires IsQuitWord(LowerStr(word))
    ensures Classify(a + word + b) == Quit
  {
    StripIgnoresPadding(a, word, b);
    QuitWordTrimmed(word);
  }

  lemma QuitWordTrimmed(word: string)
    requires IsQuitWord(LowerStr(word))
    ensures Strip(word) == word
  {
    var w := LowerStr(word);
    assert w != [] && !IsSpace(w[0]) && !IsSpace(w[|w| - 1]);
    LowerKeepsSpaceness(word[0]);
    LowerKeepsSpaceness(word[|word| - 1]);
    StripKeepsTrimmed(word);
  }

  /** A turn's input, read again, is the same turn. */
  lemma TurnReclassified(line: string)
    requires Classify(line).Turn?
    ensures Classify(Classify(line).input) == Classify(line)
  {
    TurnIsTrimmed(line);
    StripKeepsTrimmed(Strip(line));
  }

  /** What the agent call returned, or the message of what it raised. */
  datatype AgentReply = Output(text: string) | Raised(error: string)

  /** The agent: given the inputs already sent and the new input, its reply. */
  type Agent = (seq<string>, string) -> AgentReply

  /** A failure whose message names status 429 or, in any case, a quota, makes the loop pause for ten seconds. */
  predicate RateLimited(error: string) {
    Contains("429", error) || Contains("quota", LowerStr(error))
  }

  /** A message that mentions status 429 anywhere triggers the pause. */
  lemma StatusCodeLimits(a: string, b: string)
    ensures RateLimited(a + "429" + b)
  {
    var e := a + "429" + b;
    assert OccursAt("429", e, |a|) by {
      assert e[|a|..|a| + 3] == "429";
    }
    ContainsIffOccurs("429", e);
  }

  /** A message that mentions a quota, in any case, anywhere triggers the pause. */
  lemma QuotaInAnyCase(a: string, word: string, b: string)
    requires LowerStr(word) == "quota"
    ensures RateLimited(a + word + b)
  {
    var e := LowerStr(a + word + b);
    LowerAppend(a + word, b);
    LowerAppend(a, word);
    assert e == LowerStr(a) + "quota" + LowerStr(b);
    assert OccursAt("quota", e, |a|) by {
      assert e[|a|..|a| + 5] == "quota";
    }
    ContainsIffOccurs("quota", e);
  }

  /** A message with neither a digit nor the letter q never triggers the pause. */
  lemma NoDigitNoQuota(error: string)
    requires forall k :: 0 <= k < |error| ==> !IsDigit(error[k]) && Lower(error[k]) != 'q'
    ensures !RateLimited(error)
  {
    if Contains("429", error) {
      ContainsKeepsChars("429", error, 0);
    }
    if Contains("quota", LowerStr(error)) {
      ContainsKeepsChars("quota", LowerStr(error), 0);
    }
  }

  /** What one turn shows the user. */
  datatype Event =
    | Answered(input: string, output: string)
    | Failed(input: string, error: string, backoff: bool)

  function Respond(input: string, reply: AgentReply): (e: Event)
    ensures e.input == input
    ensures e.Failed? <==> reply.Raised?
    ensures e.Answered? ==> e.output == reply.text
    ensures e.Failed? ==> e.error == reply.error && (e.backoff <==> RateLimited(reply.error))
  {
    match reply
    case Output(text) => Answered(input, text)
    case Raised(error) => Failed(input, error, RateLimited(error))
  }

  /** How a session ends: the user quits, or input runs out (end of file). */
  datatype End = UserQuit | InputExhausted

  /** The outcome of a session: its turns, how it ended, and how many lines it read. */
  datatype Outcome = Outcome(events: seq<Event>, end: End, read: nat)

  /** The commands the lines ask for, line by line. */
  function Commands(lines: seq<string>): (r: seq<Command>)
    ensures |r| == |lines| && forall k :: 0 <= k < |lines| ==> r[k] == Classify(lines[k])
  {
    seq(|lines|, k requires 0 <= k < |lines| => Classify(lines[k]))
  }

  /** The inputs the agent is sent, in order: those of the turns before the first quit. */
  function Inputs(cmds: seq<Command>): (r: seq<string>)
    ensures |r| <= |cmds|
  {
    if cmds == [] then []
    else match cmds[0]
      case Quit => []
      case Skip => Inputs(cmds[1..])
      case Turn(input) => [input] + Inputs(cmds[1..])
  }

  /** The session `main` runs on `cmds`, after the inputs in `sent` have already gone to the agent. */
  function Run(cmds: seq<Command>, agent: Agent, sent: seq<string>): (o: Outcome)
    ensures |o.events| <= o.read <= |cmds|
    decreases |cmds|
  {
    if cmds == [] then Outcome([], InputExhausted, 0)
    else match cmds[0]
      case Quit => Outcome([], UserQuit, 1)
      case Skip =>
        var rest := Run(cmds[1..], agent, sent);
        Outcome(rest.events, rest.end, rest.read + 1)
      case Turn(input) =>
        var rest := Run(cmds[1..], agent, sent + [input]);
        Outcome([Respond(input, agent(sent, input))] + rest.events, rest.end, rest.read + 1)
  }

  /**
   * The session ends at the first quit, having read it, or reads every line
   * and ends when input runs out.
   */
  lemma {:induction false} RunEnds(cmds: seq<Command>, agent: Agent, sent: seq<string>)
    ensures var o := Run(cmds, agent, sent);
            (o.end == InputExhausted <==> Quit !in cmds)
            && (o.end == InputExhausted ==> o.read == |cmds|)
            && (o.end == UserQuit ==> o.read > 0 && cmds[o.read - 1] == Quit && Quit !in cmds[..o.read - 1])
    decreases |cmds|
  {
    if cmds != [] {
      RunEnds(cmds[1..], agent, sent);
      if cmds[0].Turn? {
        RunEnds(cmds[1..], agent, sent + [cmds[0].input]);
      }
      var o := Run(cmds, agent, sent);
      assert Quit in cmds <==> cmds[0] == Quit || Quit in cmds[1..];
      if o.end == UserQuit && cmds[0] != Quit {
        assert cmds[..o.read - 1] == [cmds[0]] + cmds[1..][..o.read - 2];
      }
    }
  }

  /**
   * `events` are the replies to `inputs`, one per input and in order, each
   * call given every input sent before it, after those in `sent`.
   */
  predicate AnswersInOrder(events: seq<Event>, inputs: seq<string>, agent: Agent, sent: seq<string>) {
    |events| == |inputs|
    && forall k :: 0 <= k < |inputs| ==> events[k] == Respond(inputs[k], agent(sent + inputs[..k], inputs[k]))
  }

  /** The session makes one agent call per input, in order, and each call is given every input sent before it. */
  lemma {:induction false} RunCallsAgent(cmds: seq<Command>, agent: Agent, sent: seq<string>)
    ensures AnswersInOrder(Run(cmds, agent, sent).events, Inputs(cmds), agent, sent)
    decreases |cmds|
  {
    if cmds != [] && !cmds[0].Quit? {
      if cmds[0].Skip? {
        RunCallsAgent(cmds[1..], agent, sent);
      } else {
        var input := cmds[0].input;
        RunCallsAgent(cmds[1..], agent, sent + [input]);
        AnswersPrepended(input, Run(cmds[1..], agent, sent + [input]).events, Inputs(cmds[1..]), agent, sent);
      }
    }
  }

  /** Answering one input and then the rest, with that input sent, answers them all. */
  lemma AnswersPrepended(input: string, events: seq<Event>, inputs: seq<string>, agent: Agent, sent: seq<string>)
    requires AnswersInOrder(events, inputs, agent, sent + [input])
    ensures AnswersInOrder([Respond(input, agent(sent, input))] + events, [input] + inputs, agent, sent)
  {
    var all := [input] + inputs;
    var es := [Respond(input, agent(sent, input))] + events;
    assert sent + all[..0] == sent;
    forall k | 0 < k < |all|
      ensures es[k] == Respond(all[k], agent(sent + all[..k], all[k]))
    {
      assert all[..k] == [input] + inputs[..k - 1];
      assert sent + all[..k] == sent + [input] + inputs[..k - 1];
    }
  }

  /** Every input sent comes from a turn among the commands. */
  lemma {:induction false} InputsFromTurns(cmds: seq<Command>)
    ensures forall k :: 0 <= k < |Inputs(cmds)| ==> Turn(Inputs(cmds)[k]) in cmds
    decreases |cmds|
  {
    if cmds != [] {
      InputsFromTurns(cmds[1..]);
    }
  }

  /** Every input sent is a non-empty line that would be sent as it is. */
  lemma InputsAreTurns(lines: seq<string>)
    ensures forall x :: x in Inputs(Commands(lines)) ==> x != [] && Classify(x) == Turn(x)
  {
    var cmds := Commands(lines);
    InputsFromTurns(cmds);
    forall x | x in Inputs(cmds)
      ensures x != [] && Classify(x) == Turn(x)
    {
      var k :| 0 <= k < |Inputs(cmds)| && Inputs(cmds)[k] == x;
      var i :| 0 <= i < |cmds| && cmds[i] == Turn(x);
      TurnReclassified(lines[i]);
    }
  }

  /** The inputs of the turns among `cmds`, in order, quits and skips aside. */
  function TurnInputs(cmds: seq<Command>): seq<string> {
    if cmds == [] then []
    else (if cmds[0].Turn? then [cmds[0].input] else []) + TurnInputs(cmds[1..])
  }

  /** The inputs sent are exactly the turns before the first quit (or all of them, without one), in order. */
  lemma {:induction false} InputsBeforeQuit(cmds: seq<Command>, i: nat)
    requires i <= |cmds| && Quit !in cmds[..i] && (i == |cmds| || cmds[i] == Quit)
    ensures Inputs(cmds) == TurnInputs(cmds[..i])
    decreases i
  {
    if i > 0 {
      assert cmds[0] == cmds[..i][0];
      assert cmds[1..][..i - 1] == cmds[..i][1..];
      InputsBeforeQuit(cmds[1..], i - 1);
    }
  }

  /** Every turn typed before the first quit is sent. */
  lemma {:induction false} TurnsSent(cmds: seq<Command>, k: nat)
    requires k < |cmds| && cmds[k].Turn? && Quit !in cmds[..k]
    ensures cmds[k].input in Inputs(cmds)
    decreases k
  {
    if k > 0 {
      assert cmds[0] == cmds[..k][0];
      assert cmds[1..][..k - 1] == cmds[..k][1..];
      TurnsSent(cmds[1..], k - 1);
    }
  }

  /** Nothing typed after a quit is read or sent. */
  lemma {:induction false} AfterQuitIgnored(before: seq<Command>, after1: seq<Command>, after2: seq<Command>, agent: Agent, sent: seq<string>)
    requires Quit in before
    ensures Run(before + after1, agent, sent) == Run(before + after2, agent, sent)
    decreases |before|
  {
    assert (before + after1)[0] == before[0] && (before + after2)[0] == before[0];
    if before[0] != Quit {
      assert (before + after1)[1..] == before[1..] + after1;
      assert (before + after2)[1..] == before[1..] + after2;
      var sent' := if before[0].Turn? then sent + [before[0].input] else sent;
      AfterQuitIgnored(before[1..], after1, after2, agent, sent');
    }
  }

  /**
   * `main`'s loop: read lines until a quit word or the end of input, skip
   * empty lines, and send every other line to the agent.
   */
  method RunSession(lines: seq<string>, agent: Agent) returns (events: seq<Event>, end: End, read: nat)
    ensures Outcome(events, end, read) == Run(Commands(lines), agent, [])
  {
    ghost var cmds := Commands(lines);
    var sent: seq<string> := [];
    events := [];
    read := 0;
    end := InputExhausted;
    while read < |lines|
      invariant read <= |lines|
      invariant Run(cmds, agent, []) == Resumed(events, read, Run(cmds[read..], agent, sent))
      decreases |lines| - read
    {
      var command := Classify(lines[read]);
      ghost var rest := cmds[read..];
      assert rest[0] == command && rest[1..] == cmds[read + 1..];
      read := read + 1;
      match command
      case Quit =>
        end := UserQuit;
        assert Run(rest, agent, sent) == Outcome([], UserQuit, 1);
        return;
      case Skip =>
        assert Run(rest, agent, sent) == Resumed([], 1, Run(cmds[read..], agent, sent));
      case Turn(input) =>
        var reply := agent(sent, input);
        ghost var next := Run(cmds[read..], agent, sent + [input]);
        assert Run(rest, agent, sent) == Resumed([Respond(input, reply)], 1, next);
        Regroup(events, [Respond(input, reply)], next.events);
        events := events + [Respond(input, reply)];
        sent := sent + [input];
    }
    assert cmds[read..] == [];
  }

  /** A session that has produced `events` from its first `read` lines, followed by the outcome of the rest. */
  function Resumed(events: seq<Event>, read: nat, rest: Outcome): (o: Outcome)
    ensures |o.events| == |events| + |rest.events| && o.end == rest.end && o.read == read + rest.read
  {
    Outcome(events + rest.events, rest.end, read + rest.read)
  }
}
