/**
 * The text side of the bot: how a chat message is classified into a
 * command, how that command is applied to the poll machine, and when a
 * reply goes back to the user.
 */
module VoteBot {
  import opened Wrappers
  import opened PyText
  import opened VoteMachine

  /** The commands a message can carry, plus the two ways it carries none. */
  datatype Command =
    | Help
    | Start(name: string, choices: seq<string>)
    | MissingChoices
    | Stop
    | Stat
    | Vote(value: string)
    | NoMatch
      /** The first line has no token: the bot raises an IndexError here and replies nothing. */
    | EmptyFirstLine

  const Trigger := "vote"

  const HelpText :=
    "Чтобы начать голосование:\n"
    + "vote start [название]\n"
    + "вариант1\nвариант2\nвариант 3\n\n"
    + "Чтобы проголосовать:\n"
    + "vote вариант1 или vote 0\n\n"
    + "Посмотреть статистику: vote stat\n\n"
    + "Остановить голосование: vote stop"

  const MissingChoicesMsg := "необходимо указать варианты"

  /** A word that is a sub-command when it follows the trigger word. */
  predicate Keyword(w: string) {
    w == "start" || w == "stop" || w == "stat"
  }

  /** `c` occurs in no part and not in the separator, so not in the join. */
  lemma {:induction false} JoinExcludes(sep: string, parts: seq<string>, c: char)
    requires c !in sep
    requires forall k :: 0 <= k < |parts| ==> c !in parts[k]
    ensures c !in Join(sep, parts)
  {
    if |parts| > 1 {
      JoinExcludes(sep, parts[1..], c);
    }
  }

  lemma NoSpaceNoNewline(s: string)
    requires NoSpace(s)
    ensures '\n' !in s
  {
    assert IsSpace('\n');
  }

  /** The join of whitespace-free words is normalized and free of newlines. */
  lemma JoinWordsNormalized(words: seq<string>)
    requires forall k :: 0 <= k < |words| ==> words[k] != [] && NoSpace(words[k])
    ensures SplitWs(Join(" ", words)) == words
    ensures Normalized(Join(" ", words))
    ensures '\n' !in Join(" ", words)
  {
    SplitWsJoin(words);
    forall k | 0 <= k < |words| ensures '\n' !in words[k] {
      NoSpaceNoNewline(words[k]);
    }
    JoinExcludes(" ", words, '\n');
  }

  /**
   * `process_message` up to the choice of the machine call: the first line
   * is split into tokens and the second token selects the command.
   */
  function Classify(text: string): (cmd: Command)
    ensures cmd.Start? ==> |cmd.choices| >= 1
    ensures cmd.Start? ==> forall k :: 0 <= k < |cmd.choices| ==> '\n' !in cmd.choices[k]
    ensures cmd.Start? ==> text == Join("\n", [SplitOn(text, '\n')[0]] + cmd.choices)
    ensures cmd.Start? ==> Normalized(cmd.name) && '\n' !in cmd.name
    ensures cmd.Vote? ==> Normalized(cmd.value) && '\n' !in cmd.value
    ensures cmd.Vote? ==> SplitWs(cmd.value) != [] && !Keyword(SplitWs(cmd.value)[0])
  {
    var lines := SplitOn(text, '\n');
    var command := SplitWs(lines[0]);
    if |command| == 0 then EmptyFirstLine
    else if command[0] != Trigger then NoMatch
    else if |command| == 1 then Help
    else if command[1] == "start" then
      if |lines| > 1 then
        JoinSplitOn(text, '\n');
        assert [lines[0]] + lines[1..] == lines;
        assert Join("\n", [lines[0]] + lines[1..]) == text;
        JoinWordsNormalized(command[2..]);
        Start(Join(" ", command[2..]), lines[1..])
      else MissingChoices
    else if command[1] == "stop" then Stop
    else if command[1] == "stat" then Stat
    else
      JoinWordsNormalized(command[1..]);
      assert command[1..][0] == command[1];
      Vote(Join(" ", command[1..]))
  }

  /** The commands a user can type, each in its one canonical spelling. */
  predicate Canonical(cmd: Command) {
    match cmd
    case Start(n, cs) =>
      Normalized(n) && |cs| >= 1 && forall k :: 0 <= k < |cs| ==> '\n' !in cs[k]
    case Vote(v) =>
      Normalized(v) && SplitWs(v) != [] && !Keyword(SplitWs(v)[0])
    case NoMatch => false
    case EmptyFirstLine => false
    case _ => true
  }

  /** A word followed by a text, with a single space between them unless the text is empty. */
  function Spaced(w: string, n: string): string {
    if n == "" then w else w + " " + n
  }

  /** The message a user types for a command. */
  function Render(cmd: Command): string
    requires Canonical(cmd)
  {
    match cmd
    case Help => Trigger
    case Start(n, cs) => Spaced(Trigger, Spaced("start", n)) + "\n" + Join("\n", cs)
    case MissingChoices => Spaced(Trigger, "start")
    case Stop => Spaced(Trigger, "stop")
    case Stat => Spaced(Trigger, "stat")
    case Vote(v) => Spaced(Trigger, v)
  }

  /** A word, then the words of a normalized text: the tokens are the word and those words. */
  lemma SplitWsSpaced(w: string, n: string)
    requires w != [] && NoSpace(w) && Normalized(n)
    ensures SplitWs(Spaced(w, n)) == [w] + SplitWs(n)
    ensures Normalized(Spaced(w, n)) && '\n' !in Spaced(w, n)
  {
    var toks := SplitWs(n);
    if n == "" {
      SplitWsWord(w);
    } else {
      SplitWsCons(w, n);
    }
    JoinWordsNormalized([w] + toks);
    if n != "" {
      assert Join(" ", [w] + toks) == w + " " + Join(" ", toks);
    }
  }

  lemma WordsAreWords()
    ensures Trigger != [] && NoSpace(Trigger)
    ensures "start" != [] && NoSpace("start")
    ensures "stop" != [] && NoSpace("stop")
    ensures "stat" != [] && NoSpace("stat")
  {
  }

  /** Classify, for a message whose lines and first-line tokens are known. */
  lemma ClassifyLines(text: string, lines: seq<string>, command: seq<string>)
    requires SplitOn(text, '\n') == lines && SplitWs(lines[0]) == command
    ensures Classify(text) ==
      if |command| == 0 then EmptyFirstLine
      else if command[0] != Trigger then NoMatch
      else if |command| == 1 then Help
      else if command[1] == "start" then
        if |lines| > 1 then Start(Join(" ", command[2..]), lines[1..]) else MissingChoices
      else if command[1] == "stop" then Stop
      else if command[1] == "stat" then Stat
      else Vote(Join(" ", command[1..]))
  {
  }

  /** A single-line command of the trigger word and a normalized text. */
  lemma ClassifySpaced(w: string)
    requires Normalized(w)
    ensures SplitOn(Spaced(Trigger, w), '\n') == [Spaced(Trigger, w)]
    ensures SplitWs(Spaced(Trigger, w)) == [Trigger] + SplitWs(w)
  {
    WordsAreWords();
    SplitWsSpaced(Trigger, w);
    SplitOnPlain(Spaced(Trigger, w), '\n');
  }

  lemma WordNormalized(w: string)
    requires w != [] && NoSpace(w)
    ensures Normalized(w) && SplitWs(w) == [w]
  {
    SplitWsWord(w);
  }

  /** The first line of a start command: its tokens and the absence of a newline. */
  lemma StartLine(n: string)
    requires Normalized(n)
    ensures SplitWs(Spaced(Trigger, Spaced("start", n))) == [Trigger, "start"] + SplitWs(n)
    ensures '\n' !in Spaced(Trigger, Spaced("start", n))
  {
    WordsAreWords();
    SplitWsSpaced("start", n);
    SplitWsSpaced(Trigger, Spaced("start", n));
    assert [Trigger] + (["start"] + SplitWs(n)) == [Trigger, "start"] + SplitWs(n);
  }

  /** The lines of a start command: the first line, then the choices. */
  lemma StartLines(first: string, cs: seq<string>)
    requires '\n' !in first && |cs| >= 1
    requires forall k :: 0 <= k < |cs| ==> '\n' !in cs[k]
    ensures SplitOn(first + "\n" + Join("\n", cs), '\n') == [first] + cs
  {
    var lines := [first] + cs;
    forall k | 0 <= k < |lines| ensures '\n' !in lines[k] {
      if k == 0 {
        assert lines[0] == first;
      } else {
        assert lines[k] == cs[k - 1];
      }
    }
    SplitOnJoin(lines, '\n');
    assert Join("\n", lines) == first + "\n" + Join("\n", lines[1..]);
    assert lines[1..] == cs;
  }

  lemma ClassifyRenderStart(n: string, cs: seq<string>)
    requires Normalized(n) && |cs| >= 1
    requires forall k :: 0 <= k < |cs| ==> '\n' !in cs[k]
    ensures Classify(Render(Start(n, cs))) == Start(n, cs)
  {
    var first := Spaced(Trigger, Spaced("start", n));
    var command := [Trigger, "start"] + SplitWs(n);
    StartLine(n);
    StartLines(first, cs);
    var lines := [first] + cs;
    assert command[2..] == SplitWs(n);
    assert lines[1..] == cs;
    ClassifyLines(Render(Start(n, cs)), lines, command);
  }

  lemma ClassifyRenderVote(v: string)
    requires Canonical(Vote(v))
    ensures Classify(Render(Vote(v))) == Vote(v)
  {
    ClassifySpaced(v);
    var command := [Trigger] + SplitWs(v);
    assert command[1..] == SplitWs(v);
    ClassifyLines(Render(Vote(v)), [Spaced(Trigger, v)], command);
  }

  /** The trigger word and one more word on a single line. */
  lemma ClassifyWord(w: string)
    requires w != [] && NoSpace(w)
    ensures SplitOn(Spaced(Trigger, w), '\n') == [Spaced(Trigger, w)]
    ensures SplitWs(Spaced(Trigger, w)) == [Trigger, w]
  {
    WordNormalized(w);
    ClassifySpaced(w);
  }

  /** Every canonical command is read back from the message that spells it. */
  lemma ClassifyRender(cmd: Command)
    requires Canonical(cmd)
    ensures Classify(Render(cmd)) == cmd
  {
    WordsAreWords();
    match cmd {
      case Help =>
        SplitOnPlain(Trigger, '\n');
        SplitWsWord(Trigger);
        ClassifyLines(Trigger, [Trigger], [Trigger]);
      case Start(n, cs) =>
        ClassifyRenderStart(n, cs);
      case MissingChoices =>
        ClassifyWord("start");
        ClassifyLines(Spaced(Trigger, "start"), [Spaced(Trigger, "start")], [Trigger, "start"]);
      case Stop =>
        ClassifyWord("stop");
        ClassifyLines(Spaced(Trigger, "stop"), [Spaced(Trigger, "stop")], [Trigger, "stop"]);
      case Stat =>
        ClassifyWord("stat");
        ClassifyLines(Spaced(Trigger, "stat"), [Spaced(Trigger, "stat")], [Trigger, "stat"]);
      case Vote(v) =>
        ClassifyRenderVote(v);
    }
  }

  /** A message whose first token is not the trigger word is no command. */
  lemma ClassifyNoTrigger(text: string)
    requires SplitWs(SplitOn(text, '\n')[0]) != []
    requires SplitWs(SplitOn(text, '\n')[0])[0] != Trigger
    ensures Classify(text) == NoMatch
  {
  }

  /** With at least one choice the statistics text is never empty. */
  lemma StatTextNotEmpty(name: string, choices: seq<string>, votes: map<string, string>)
    requires |choices| >= 1
    ensures StatText(name, choices, votes) != ""
  {
    var parts := [name] + StatLines(choices, votes);
    assert Join("\n", parts) == parts[0] + "\n" + Join("\n", parts[1..]);
  }

  /**
   * `process_message` from the split to the machine call: the reply text
   * before it is addressed, `None` when the message is no command.
   */
  method Dispatch(m: Machine, user: string, text: string) returns (response: Option<string>)
    requires m.Valid()
    modifies m
    ensures m.Valid()
    ensures Classify(text) in {NoMatch, EmptyFirstLine} ==> response == None && unchanged(m)
    ensures Classify(text) == Help ==> response == Some(HelpText) && unchanged(m)
    ensures Classify(text) == MissingChoices ==> response == Some(MissingChoicesMsg) && unchanged(m)
    ensures Classify(text).Start? && old(m.state) == Wait ==>
              response == Some(OkMsg) && m.state == Active
              && m.name == Some(Classify(text).name) && m.choices == Classify(text).choices
              && m.votes == map[]
    ensures Classify(text).Start? && old(m.state) == Active ==>
              response == Some(AlreadyActiveMsg) && unchanged(m)
    ensures Classify(text) == Stop && old(m.state) == Active ==>
              response == Some(StatText(old(m.name).value, old(m.choices), old(m.votes)))
              && m.state == Wait
              && m.name == old(m.name) && m.choices == old(m.choices) && m.votes == old(m.votes)
    ensures Classify(text) == Stop && old(m.state) == Wait ==>
              response == Some(NotStartedMsg) && unchanged(m)
    ensures Classify(text) == Stat && m.state == Active ==>
              response == Some(StatText(m.name.value, m.choices, m.votes)) && unchanged(m)
    ensures Classify(text) == Stat && m.state == Wait ==>
              response == Some(NoVoteMsg) && unchanged(m)
    ensures Classify(text).Vote? ==>
              m.state == old(m.state) && m.name == old(m.name) && m.choices == old(m.choices)
    ensures Classify(text).Vote? && old(m.state) == Active ==>
              match Resolve(m.choices, Classify(text).value)
              case Some(v) => response == Some(OkMsg) && m.votes == old(m.votes)[user := v]
              case None => response == Some(InvalidValueMsg) && m.votes == old(m.votes)
    ensures Classify(text).Vote? && old(m.state) == Wait ==>
              response == Some(NoVoteMsg) && m.votes == old(m.votes)
  {
    var reply: string;
    match Classify(text)
    case Help =>
      response := Some(HelpText);
    case Start(name, choices) =>
      reply := m.StartVote(name, choices);
      response := Some(reply);
    case MissingChoices =>
      response := Some(MissingChoicesMsg);
    case Stop =>
      reply := m.StopVote();
      response := Some(reply);
    case Stat =>
      reply := m.Stat();
      response := Some(reply);
    case Vote(value) =>
      reply := m.Vote(user, value);
      response := Some(reply);
    case NoMatch =>
      response := None;
    case EmptyFirstLine =>
      response := None;
  }

  /**
   * What is sent back (`if not response: return`, then `'@{} {}'`): nothing
   * for no or an empty response, otherwise the response addressed to the
   * user's display name.
   */
  function Outgoing(userName: string, response: Option<string>): (message: Option<string>)
    ensures message.Some? <==> response.Some? && response.value != ""
    ensures message.Some? ==>
              |message.value| >= |userName| + 2
              && message.value[..|userName| + 2] == "@" + userName + " "
              && message.value[|userName| + 2..] == response.value
  {
    if response == None || response.value == "" then None
    else Some("@" + userName + " " + response.value)
  }
}
