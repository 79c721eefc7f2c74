/**
 * Worked examples: a whole poll driven through the dispatcher, and the
 * index and statistics facts it rests on.
 */
module Scenarios {
  import opened Wrappers
  import opened PyText
  import opened VoteMachine
  import opened VoteBot

  const LunchChoices := ["Pizza", "Sushi"]

  /** The ballots after u1 votes 0, u2 votes Sushi and u1 votes 1. */
  const LunchVotes := map[]["u1" := "Pizza"]["u2" := "Sushi"]["u1" := "Sushi"]

  /** Digits of small numbers, as `str` writes them. */
  lemma SmallNumerals()
    ensures NatToString(0) == "0" && NatToString(1) == "1" && NatToString(2) == "2"
    ensures NatToString(3) == "3" && NatToString(5) == "5" && NatToString(7) == "7"
  {
  }

  /** The value `-n` for a small `n` parses as the negative integer. */
  lemma ParseMinus(n: nat, text: string)
    requires n < 10 && text == "-" + NatToString(n)
    ensures ParseInt(text) == Some(-(n as int))
  {
    ParseIntNegative(n);
  }

  /** The value `n` for a small `n` parses as that integer. */
  lemma ParsePlain(n: nat, text: string)
    requires n < 10 && text == NatToString(n)
    ensures ParseInt(text) == Some(n)
  {
    ParseIntNatToString(n);
  }

  /** The statistics of the lunch poll: u1's second ballot replaced the first. */
  lemma LunchStat()
    ensures StatText("Lunch", LunchChoices, LunchVotes) == "Lunch\nPizza: 0\nSushi: 2"
  {
    var v1 := map[]["u1" := "Pizza"];
    var v2 := v1["u2" := "Sushi"];
    CountEmpty("Pizza");
    CountEmpty("Sushi");
    CountAfterVote(map[], "u1", "Pizza", "Pizza");
    CountAfterVote(map[], "u1", "Pizza", "Sushi");
    CountAfterVote(v1, "u2", "Sushi", "Pizza");
    CountAfterVote(v1, "u2", "Sushi", "Sushi");
    CountAfterVote(v2, "u1", "Sushi", "Pizza");
    CountAfterVote(v2, "u1", "Sushi", "Sushi");
    assert Count(LunchVotes, "Pizza") == 0 && Count(LunchVotes, "Sushi") == 2;
    SmallNumerals();
    var lines := StatLines(LunchChoices, LunchVotes);
    assert lines[0] == Line("Pizza", 0) == "Pizza: 0";
    assert lines[1] == Line("Sushi", 2) == "Sushi: 2";
    assert lines == ["Pizza: 0", "Sushi: 2"];
    var parts := ["Lunch"] + lines;
    assert parts == ["Lunch", "Pizza: 0", "Sushi: 2"];
    assert Join("\n", parts[2..]) == "Sushi: 2";
    assert Join("\n", parts[1..]) == "Pizza: 0" + "\n" + "Sushi: 2";
    assert Join("\n", parts) == "Lunch" + "\n" + ("Pizza: 0" + "\n" + "Sushi: 2");
  }

  lemma MinusOne()
    ensures Resolve(LunchChoices, "-1") == Some("Sushi")
  {
    SmallNumerals();
    ParseMinus(1, "-1");
    ResolveIndex(LunchChoices, "-1", -1);
  }

  lemma MinusTwo()
    ensures Resolve(LunchChoices, "-2") == Some("Pizza")
  {
    SmallNumerals();
    ParseMinus(2, "-2");
    ResolveIndex(LunchChoices, "-2", -2);
  }

  lemma MinusThree()
    ensures Resolve(LunchChoices, "-3") == None
  {
    SmallNumerals();
    ParseMinus(3, "-3");
    ResolveIndexOutOfRange(LunchChoices, "-3", -3);
  }

  /** Negative values count from the end of the choices; further back they are rejected. */
  lemma NegativeIndexes()
    ensures Resolve(LunchChoices, "-1") == Some("Sushi")
    ensures Resolve(LunchChoices, "-2") == Some("Pizza")
    ensures Resolve(LunchChoices, "-3") == None
  {
    MinusOne();
    MinusTwo();
    MinusThree();
  }

  /**
   * A value spelled like an integer is read as an index, never matched as
   * text: the choice `7` is reached by its index `0`, not by typing `7`.
   */
  lemma NumericChoiceIsAnIndex()
    ensures Resolve(["7", "Pizza"], "7") == None
    ensures Resolve(["7", "Pizza"], "0") == Some("7")
    ensures Resolve(["1", "0"], "0") == Some("1")
  {
    SmallNumerals();
    ParsePlain(7, "7");
    ParsePlain(0, "0");
    ResolveIndexOutOfRange(["7", "Pizza"], "7", 7);
    ResolveIndex(["7", "Pizza"], "0", 0);
    ResolveIndex(["1", "0"], "0", 0);
  }

  lemma VoteCommand(v: string)
    requires v != [] && NoSpace(v) && !Keyword(v)
    ensures Classify(Spaced(Trigger, v)) == Vote(v)
  {
    WordNormalized(v);
    ClassifyRender(Vote(v));
  }

  lemma VoteText(v: string, text: string)
    requires v != [] && NoSpace(v) && !Keyword(v) && text == Trigger + " " + v
    ensures Classify(text) == Vote(v)
  {
    VoteCommand(v);
  }

  lemma StartLunch()
    ensures Classify("vote start Lunch\nPizza\nSushi") == Start("Lunch", LunchChoices)
  {
    LunchCanonical();
    ClassifyRender(Start("Lunch", LunchChoices));
    RenderLunch();
  }

  lemma LunchChoiceLines()
    ensures forall k :: 0 <= k < |LunchChoices| ==> '\n' !in LunchChoices[k]
  {
    assert '\n' !in "Pizza";
    assert '\n' !in "Sushi";
  }

  lemma LunchCanonical()
    ensures Canonical(Start("Lunch", LunchChoices))
  {
    WordNormalized("Lunch");
    LunchChoiceLines();
  }

  lemma RenderStartAs(n: string, cs: seq<string>, text: string)
    requires Canonical(Start(n, cs))
    requires text == Spaced(Trigger, Spaced("start", n)) + "\n" + Join("\n", cs)
    ensures Render(Start(n, cs)) == text
  {
  }

  lemma LunchPieces()
    ensures Join("\n", LunchChoices) == "Pizza\nSushi"
    ensures Spaced(Trigger, Spaced("start", "Lunch")) == "vote start Lunch"
    ensures "vote start Lunch\nPizza\nSushi" == "vote start Lunch" + "\n" + "Pizza\nSushi"
  {
  }

  lemma RenderLunch()
    ensures Canonical(Start("Lunch", LunchChoices))
    ensures Render(Start("Lunch", LunchChoices)) == "vote start Lunch\nPizza\nSushi"
  {
    LunchCanonical();
    LunchPieces();
    RenderStartAs("Lunch", LunchChoices, "vote start Lunch\nPizza\nSushi");
  }

  /** `vote stat` asks for the statistics. */
  lemma StatCommand()
    ensures Classify("vote stat") == Stat
  {
    ClassifyRender(Stat);
    assert Render(Stat) == "vote stat";
  }

  /** `vote stop` ends the poll. */
  lemma StopCommand()
    ensures Classify("vote stop") == Stop
  {
    ClassifyRender(Stop);
    assert Render(Stop) == "vote stop";
  }

  /** The ballots u1 and u2 cast in the lunch poll resolve as the index and literal rules say. */
  lemma LunchBallots()
    ensures Resolve(LunchChoices, "0") == Some("Pizza")
    ensures Resolve(LunchChoices, "Sushi") == Some("Sushi")
    ensures Resolve(LunchChoices, "1") == Some("Sushi")
    ensures Resolve(LunchChoices, "5") == None
  {
    SmallNumerals();
    ParsePlain(0, "0");
    ParsePlain(1, "1");
    ParsePlain(5, "5");
    ParseIntNoDigit("Sushi");
  }

  /** The help text's own example, `vote 0`, is a vote for the first choice. */
  lemma VoteZeroMessage()
    ensures Classify("vote 0") == Vote("0")
  {
    VoteText("0", "vote 0");
  }

  /** The lunch poll run on the machine, from its start to the requests after its end. */
  method LunchPoll() returns (replies: seq<string>)
    ensures replies == [
      OkMsg, OkMsg, OkMsg, OkMsg, InvalidValueMsg,
      "Lunch\nPizza: 0\nSushi: 2", "Lunch\nPizza: 0\nSushi: 2",
      NoVoteMsg, NotStartedMsg, NoVoteMsg, OkMsg]
  {
    var m := new Machine();
    var r0 := m.StartVote("Lunch", LunchChoices);
    LunchBallots();
    var r1 := m.Vote("u1", "0");
    var r2 := m.Vote("u2", "Sushi");
    var r3 := m.Vote("u1", "1");
    var r4 := m.Vote("u1", "5");
    assert m.state == Active && m.name == Some("Lunch") && m.votes == LunchVotes;
    LunchStat();
    var r5 := m.Stat();
    var r6 := m.StopVote();
    var r7 := m.Stat();
    var r8 := m.StopVote();
    var r9 := m.Vote("u1", "0");
    var r10 := m.StartVote("Dinner", []);
    replies := [r0, r1, r2, r3, r4, r5, r6, r7, r8, r9, r10];
  }
}
