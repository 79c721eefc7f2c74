/**
 * The poll state machine: a two-state automaton (Wait, Active) that holds
 * one poll -- its name, its ordered choices and the ballot of every user --
 * and answers start, stop, vote and stat requests with a reply text.
 */
module VoteMachine {
  import opened Wrappers
  import opened PyText

  datatype State = Wait | Active

  const OkMsg := "ok"
  /** Refusal of `start_vote` while a poll is running. */
  const AlreadyActiveMsg := "Чтобы начать новое голосование необходимо завершить текущее"
  /** Refusal of `stop_vote` while no poll is running. */
  const NotStartedMsg := "Чтобы остановить голосование его нужно сначала начать"
  /** Refusal of `vote` and `stat` while no poll is running. */
  const NoVoteMsg := "Нет запущенного голосования"
  /** Reply to a vote value that names no choice. */
  const InvalidValueMsg := "неверное значение"

  // ---------------------------------------------------------------------
  // Resolving a vote value to a choice

  /** The position Python's `xs[i]` reads in a list of length `n`. */
  function PyIndex(n: nat, i: int): (k: nat)
    requires -(n as int) <= i < n
    ensures k < n && (k == i || k == i + n)
  {
    if i < 0 then i + n else i
  }

  /**
   * The choice a raw vote value selects, if any: a value that parses as an
   * integer is a Python list index (negative ones count from the end) and
   * nothing else; any other value must be one of the choices exactly.
   */
  function Resolve(choices: seq<string>, value: string): (r: Option<string>)
    ensures r.Some? ==> r.value in choices
  {
    match ParseInt(value)
    case Some(i) =>
      if -|choices| <= i < |choices| then Some(choices[PyIndex(|choices|, i)]) else None
    case None =>
      if value in choices then Some(value) else None
  }

  /** An integer in index range selects the choice at that index, from the end when negative. */
  lemma ResolveIndex(choices: seq<string>, value: string, i: int)
    requires ParseInt(value) == Some(i) && -|choices| <= i < |choices|
    ensures Resolve(choices, value) == Some(if i < 0 then choices[|choices| + i] else choices[i])
  {
  }

  /** An integer outside the index range is rejected, even if it is spelled like a choice. */
  lemma ResolveIndexOutOfRange(choices: seq<string>, value: string, i: int)
    requires ParseInt(value) == Some(i) && !(-|choices| <= i < |choices|)
    ensures Resolve(choices, value) == None
  {
  }

  /** A value that is not an integer is accepted exactly when it is one of the choices. */
  lemma ResolveLiteral(choices: seq<string>, value: string)
    requires ParseInt(value) == None
    ensures Resolve(choices, value).Some? <==> value in choices
    ensures Resolve(choices, value).Some? ==> Resolve(choices, value).value == value
  {
  }

  // ---------------------------------------------------------------------
  // Counting ballots and rendering the statistics

  /** The users whose ballot is `c`. */
  function Voters(votes: map<string, string>, c: string): set<string> {
    set u | u in votes && votes[u] == c
  }

  /** The number of ballots for `c`. */
  function Count(votes: map<string, string>, c: string): nat {
    |Voters(votes, c)|
  }

  /** `Counter.get(c, 0)`. */
  function Tally(counter: map<string, nat>, c: string): nat {
    if c in counter then counter[c] else 0
  }

  /** One statistics line, `'{}: {}'.format(choice, count)`. */
  function Line(choice: string, count: nat): string {
    choice + ": " + NatToString(count)
  }

  /** A statistics line reads back as its choice, `": "`, and a count that `int()` turns back into the count. */
  lemma LineReadsBack(choice: string, count: nat)
    ensures Line(choice, count)[..|choice|] == choice
    ensures Line(choice, count)[|choice|..|choice| + 2] == ": "
    ensures ParseInt(Line(choice, count)[|choice| + 2..]) == Some(count)
  {
    var line := Line(choice, count);
    assert line[|choice| + 2..] == NatToString(count);
    ParseIntNatToString(count);
  }

  /** The statistics lines, one per choice in the order of `choices`. */
  function StatLines(choices: seq<string>, votes: map<string, string>): (lines: seq<string>)
    ensures |lines| == |choices|
    ensures forall j :: 0 <= j < |choices| ==> lines[j] == Line(choices[j], Count(votes, choices[j]))
  {
    seq(|choices|, j requires 0 <= j < |choices| => Line(choices[j], Count(votes, choices[j])))
  }

  /** The statistics text: the poll name, then the statistics lines, separated by newlines. */
  function StatText(name: string, choices: seq<string>, votes: map<string, string>): string {
    Join("\n", [name] + StatLines(choices, votes))
  }

  /**
   * Recording a ballot -- the first one of a user or one that replaces that
   * user's earlier ballot -- moves the user from the count of the old choice
   * to the count of the new one and leaves every other count alone: the
   * last vote wins.
   */
  lemma CountAfterVote(votes: map<string, string>, user: string, v: string, c: string)
    ensures Count(votes[user := v], c)
         == Count(votes, c) - (if user in votes && votes[user] == c then 1 else 0)
                            + (if v == c then 1 else 0)
  {
    var before := Voters(votes, c);
    var rest := before - {user};
    assert Voters(votes[user := v], c) == if v == c then rest + {user} else rest;
    if user in votes && votes[user] == c {
      assert before == rest + {user};
      assert |before| == |rest| + 1;
    } else {
      assert before == rest;
    }
  }

  /** Before any ballot every count is zero. */
  lemma CountEmpty(c: string)
    ensures Count(map[], c) == 0
  {
    assert Voters(map[], c) == {};
  }

  predicate Distinct(choices: seq<string>) {
    forall i, j :: 0 <= i < j < |choices| ==> choices[i] != choices[j]
  }

  /** The counts of the choices added up. */
  function SumCounts(choices: seq<string>, votes: map<string, string>): nat {
    if choices == [] then 0 else Count(votes, choices[0]) + SumCounts(choices[1..], votes)
  }

  /** Counts depend only on the ballots for the choices asked about. */
  lemma {:induction false} SumCountsAgree(choices: seq<string>, a: map<string, string>, b: map<string, string>)
    requires forall k :: 0 <= k < |choices| ==> Voters(a, choices[k]) == Voters(b, choices[k])
    ensures SumCounts(choices, a) == SumCounts(choices, b)
  {
    if choices != [] {
      assert Voters(a, choices[0]) == Voters(b, choices[0]);
      SumCountsAgree(choices[1..], a, b);
    }
  }

  /**
   * With distinct choices and every ballot for one of them, the counts add
   * up to the number of users who voted.
   */
  lemma {:induction false} SumCountsIsVoters(choices: seq<string>, votes: map<string, string>)
    requires Distinct(choices)
    requires forall u :: u in votes ==> votes[u] in choices
    ensures SumCounts(choices, votes) == |votes|
  {
    if choices == [] {
      assert votes.Keys == {};
    } else {
      var first := choices[0];
      var tail := choices[1..];
      var mine := Voters(votes, first);
      var others := map u | u in votes && votes[u] != first :: votes[u];
      assert votes.Keys == mine + others.Keys;
      assert mine * others.Keys == {};
      assert |votes.Keys| == |mine| + |others.Keys|;
      assert Distinct(tail);
      forall u | u in others ensures others[u] in tail {
        var k :| 0 <= k < |choices| && choices[k] == votes[u];
        assert k != 0;
        assert tail[k - 1] == votes[u];
      }
      SumCountsIsVoters(tail, others);
      forall k | 0 <= k < |tail| ensures Voters(votes, tail[k]) == Voters(others, tail[k]) {
        assert tail[k] == choices[k + 1] != first;
      }
      SumCountsAgree(tail, votes, others);
      assert |votes| == |votes.Keys|;
      assert |others| == |others.Keys|;
    }
  }

  /**
   * With no newline in the name or in a choice, the statistics text splits
   * back into the name and one `choice: count` line per choice.
   */
  lemma StatTextLines(name: string, choices: seq<string>, votes: map<string, string>)
    requires '\n' !in name
    requires forall k :: 0 <= k < |choices| ==> '\n' !in choices[k]
    ensures SplitOn(StatText(name, choices, votes), '\n') == [name] + StatLines(choices, votes)
  {
    var parts := [name] + StatLines(choices, votes);
    forall k | 0 <= k < |parts| ensures '\n' !in parts[k] {
      if k > 0 {
        var c := choices[k - 1];
        var d := NatToString(Count(votes, c));
        assert parts[k] == c + ": " + d;
        assert forall i :: 0 <= i < |d| ==> IsDigit(d[i]);
      }
    }
    SplitOnJoin(parts, '\n');
  }

  /** A freshly started poll shows every choice with count 0. */
  lemma StatTextFresh(name: string, choices: seq<string>)
    ensures StatText(name, choices, map[])
         == Join("\n", [name] + seq(|choices|, j requires 0 <= j < |choices| => choices[j] + ": 0"))
  {
    forall j | 0 <= j < |choices| ensures Line(choices[j], Count(map[], choices[j])) == choices[j] + ": 0" {
      CountEmpty(choices[j]);
    }
    assert StatLines(choices, map[]) == seq(|choices|, j requires 0 <= j < |choices| => choices[j] + ": 0");
  }

  // ---------------------------------------------------------------------
  // The machine

  class Machine {
    var state: State
    /** `vote_name`: `None` until the first poll starts. */
    var name: Option<string>
    var choices: seq<string>
    /** The ballots: user to chosen value. */
    var votes: map<string, string>

    /** Every ballot is one of the current choices; a running poll has a name. */
    ghost predicate Valid()
      reads this
    {
      (forall u :: u in votes ==> votes[u] in choices)
      && (state == Active ==> name.Some?)
    }

    constructor ()
      ensures Valid()
      ensures state == Wait && name == None && choices == [] && votes == map[]
    {
      state := Wait;
      name := None;
      choices := [];
      votes := map[];
    }

    /** `_start_vote`: replaces the poll wholesale. */
    method DoStartVote(voteName: string, newChoices: seq<string>) returns (reply: string)
      modifies this
      ensures Valid()
      ensures reply == OkMsg
      ensures state == old(state) && name == Some(voteName) && choices == newChoices && votes == map[]
    {
      name := Some(voteName);
      choices := newChoices;
      votes := map[];
      reply := OkMsg;
    }

    /** `_stat`: counts the ballots, then renders one line per choice. */
    method DoStat() returns (reply: string)
      requires name.Some?
      ensures reply == StatText(name.value, choices, votes)
    {
      var counter: map<string, nat> := map[];
      var pending := votes.Keys;
      while pending != {}
        invariant pending <= votes.Keys
        invariant forall c :: Tally(counter, c) == Count(votes - pending, c)
        decreases pending
      {
        var user :| user in pending;
        var value := votes[user];
        ghost var counted := votes - pending;
        assert votes - (pending - {user}) == counted[user := value];
        var next := counter[value := Tally(counter, value) + 1];
        forall c ensures Tally(next, c) == Count(counted[user := value], c) {
          CountAfterVote(counted, user, value, c);
        }
        counter := next;
        pending := pending - {user};
      }
      assert votes - pending == votes;

      var messages := [name.value];
      for i := 0 to |choices|
        invariant |messages| == i + 1 && messages[0] == name.value
        invariant forall j :: 0 <= j < i ==> messages[j + 1] == Line(choices[j], Count(votes, choices[j]))
      {
        var choice := choices[i];
        messages := messages + [Line(choice, Tally(counter, choice))];
      }
      assert messages == [name.value] + StatLines(choices, votes);
      reply := Join("\n", messages);
    }

    /** `_vote`: records the ballot of `user` when `value` resolves to a choice. */
    method DoVote(user: string, value: string) returns (reply: string)
      requires Valid()
      modifies this
      ensures Valid()
      ensures state == old(state) && name == old(name) && choices == old(choices)
      ensures Resolve(choices, value).Some? ==>
                reply == OkMsg && votes == old(votes)[user := Resolve(choices, value).value]
      ensures Resolve(choices, value).None? ==> reply == InvalidValueMsg && votes == old(votes)
    {
      var chosen := value;
      var index := ParseInt(value);
      if index.Some? {
        if !(-|choices| <= index.value < |choices|) {
          return InvalidValueMsg;
        }
        chosen := choices[PyIndex(|choices|, index.value)];
      }
      if chosen !in choices {
        return InvalidValueMsg;
      }
      votes := votes[user := chosen];
      reply := OkMsg;
    }

    /** `start_vote`: opens a poll from Wait, refuses while Active. */
    method StartVote(voteName: string, newChoices: seq<string>) returns (reply: string)
      requires Valid()
      modifies this
      ensures Valid()
      ensures old(state) == Wait ==>
                reply == OkMsg && state == Active
                && name == Some(voteName) && choices == newChoices && votes == map[]
      ensures old(state) == Active ==> reply == AlreadyActiveMsg && unchanged(this)
    {
      match state
      case Wait =>
        state := Active;
        reply := DoStartVote(voteName, newChoices);
      case Active =>
        reply := AlreadyActiveMsg;
    }

    /** `stop_vote`: closes the running poll and replies with its final statistics. */
    method StopVote() returns (reply: string)
      requires Valid()
      modifies this
      ensures Valid()
      ensures old(state) == Active ==>
                reply == StatText(old(name).value, old(choices), old(votes))
                && state == Wait
                && name == old(name) && choices == old(choices) && votes == old(votes)
      ensures old(state) == Wait ==> reply == NotStartedMsg && unchanged(this)
    {
      match state
      case Active =>
        state := Wait;
        reply := DoStat();
      case Wait =>
        reply := NotStartedMsg;
    }

    /** `vote`: records a ballot in the running poll. */
    method Vote(user: string, value: string) returns (reply: string)
      requires Valid()
      modifies this
      ensures Valid()
      ensures state == old(state) && name == old(name) && choices == old(choices)
      ensures old(state) == Active && Resolve(choices, value).Some? ==>
                reply == OkMsg && votes == old(votes)[user := Resolve(choices, value).value]
      ensures old(state) == Active && Resolve(choices, value).None? ==>
                reply == InvalidValueMsg && votes == old(votes)
      ensures old(state) == Wait ==> reply == NoVoteMsg && votes == old(votes)
    {
      match state
      case Active =>
        reply := DoVote(user, value);
      case Wait =>
        reply := NoVoteMsg;
    }

    /** `stat`: the statistics of the running poll. */
    method Stat() returns (reply: string)
      requires Valid()
      ensures state == Active ==> reply == StatText(name.value, choices, votes)
      ensures state == Wait ==> reply == NoVoteMsg
    {
      match state
      case Active =>
        reply := DoStat();
      case Wait =>
        reply := NoVoteMsg;
    }
  }
}
