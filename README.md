# slack-vote-bot: the poll machine and the command dispatcher, in Dafny

The bot runs one poll at a time in a Slack channel. `VoteMachine` is a
two-state automaton, Wait and Active. It holds the poll's name
(`vote_name`), the ordered `choices` and the `votes` dictionary from user
to chosen value. It answers `start_vote`, `stop_vote`, `vote` and `stat`
with a reply text. `VoteBot.process_message` splits a chat message into
lines and tokens. It decides which of those operations to call, or whether
to answer with help text, and addresses the reply to the user.

The project has five modules:

- `Wrappers` (`wrappers.dfy`): `Option`, the model of Python's `None`-or-value.
- `PyText` (`pytext.dfy`): the Python string built-ins the code uses, as
  functions: `str.split('\n')`, the argument-less `str.split()`,
  `' '.join`, `int()` on a decimal literal and `str(n)`. Lemmas cover the
  round trips between them.
- `VoteMachine` (`votemachine.dfy`): the class `Machine`, with fields
  `state`, `name`, `choices` and `votes` and one method per source method.
  It also holds the specification functions the methods are proved
  against:
  - `Resolve`: which choice a raw vote value selects;
  - `Count`: how many users voted for a choice;
  - `StatText`: the rendered statistics.

  The object invariant `Valid()` says that every recorded ballot is one of
  the current choices. Every method keeps it.
- `VoteBot` (`votebot.dfy`): `Classify`, the pure command classification of
  `process_message`. `Render` is its inverse for canonical spellings.
  `Dispatch` applies a message to the machine. `Outgoing` decides what is
  sent back.
- `Scenarios` (`scenarios.dfy`): a lunch poll played through the machine,
  with its statistics, negative indices and numeric-looking choices.

The model does what the code does:

- A vote value that parses as an integer is a Python list index. Negative
  indices are not rejected: `-1` is the last choice, as Python list
  indexing gives. Only indices outside `-len..len-1` are rejected.
- A value that parses as an integer is always read as an index and never
  matched as text. Among two choices, a choice spelled `7` cannot be chosen
  by typing `7`, only by its index (`NumericChoiceIsAnIndex`).
- `choices` may hold duplicates and empty strings.
- The machine itself accepts an empty `choices` list. Only the dispatcher
  guarantees at least one choice, because it requires a second line.
  `LunchPoll` shows `start_vote("Dinner", [])` answered with `ok`.

## Model

| member | source | states |
|---|---|---|
| `PyText.SplitOn` | votemachine.py:164 | `text.split('\n')` gives at least one line, and no line contains a newline |
| `PyText.JoinSplitOn` | votemachine.py:164 | joining the lines of a split with `'\n'` gives the original text back |
| `PyText.SplitOnJoin` | votemachine.py:164 | splitting a `'\n'`-join of newline-free parts gives exactly those parts |
| `PyText.SplitWs` | votemachine.py:166 | `line.split()` gives only non-empty, whitespace-free tokens |
| `PyText.JoinSplitWs` | votemachine.py:166 | for every text, `' '.join(line.split())` is the text with each inner run of whitespace squeezed to one space and none kept at either end, so the tokens are exactly its words, however it is padded |
| `PyText.SplitWsJoin` | votemachine.py:166 | splitting a single-space join of whitespace-free words gives the words back, so `' '.join(command[k:])` loses nothing |
| `PyText.Join` | votemachine.py:101 | `sep.join(parts)`; its lemmas state that joining with `'\n'` inverts `split('\n')` (`JoinSplitOn`, `SplitOnJoin`), that joining words with `' '` inverts `split()` (`SplitWsJoin`, `JoinSplitWs`), and that a character in neither the parts nor the separator is not in the join (`VoteBot.JoinExcludes`) |
| `PyText.ParseInt` | votemachine.py:106 | `int(value)`; its lemmas state that it inverts `str(n)`, also with a minus sign (`ParseIntNatToString`, `ParseIntNegative`), that text without a digit is the `ValueError` case (`ParseIntNoDigit`) and that padding whitespace is ignored (`ParseIntPadded`) |
| `PyText.ParseIntPadded` | votemachine.py:106 | a whitespace character added before or after the value does not change what `int(value)` gives |
| `PyText.ParseIntNatToString` | votemachine.py:106 | `int(str(n)) == n` |
| `PyText.ParseIntNegative` | votemachine.py:106 | `int('-' + str(n)) == -n`, the value that indexes from the end |
| `PyText.ParseIntNoDigit` | votemachine.py:112-113 | a value without digits raises `ValueError`, so it is matched as a literal |
| `PyText.NatToString` | votemachine.py:99 | the count is rendered as non-empty decimal digits that denote it; a leading `0` occurs only in the one-digit `"0"` |
| `VoteMachine.PyIndex` | votemachine.py:107 | the position `choices[index]` reads for an index in `-len..len-1`: below `len`, and either the index itself or the index plus `len` |
| `VoteMachine.Resolve` | votemachine.py:103-116 | a value that `_vote` accepts is always an element of `choices` |
| `VoteMachine.ResolveIndex` | votemachine.py:105-107 | an integer `i` with `-len <= i < len` selects `choices[i]`, counting from the end when `i` is negative |
| `VoteMachine.ResolveIndexOutOfRange` | votemachine.py:105-110 | an integer outside the index range is rejected (`IndexError`), even when a choice is spelled that way |
| `VoteMachine.ResolveLiteral` | votemachine.py:112-116 | a non-integer value is accepted exactly when it is an element of `choices`, and then it is itself the ballot |
| `VoteMachine.Count` | votemachine.py:89-92 | `vote_stat[c]` after the counting loop, defined as the number of users whose ballot is `c`; `DoStat`'s loop invariant proves the `Counter` reaches it, and `CountAfterVote`, `CountEmpty` and `SumCountsIsVoters` state how it behaves |
| `VoteMachine.Tally` | votemachine.py:98 | `vote_stat.get(choice, 0)`; `DoStat`'s invariant states that it equals `Count` over the ballots visited so far |
| `VoteMachine.Line` | votemachine.py:99 | `'{}: {}'.format(choice, count)`; `LineReadsBack` states that it reads back as the choice, `": "` and the count |
| `VoteMachine.LineReadsBack` | votemachine.py:99 | a statistics line starts with the choice and `": "`, and `int()` of the rest gives the count back |
| `VoteMachine.StatText` | votemachine.py:94-101 | the result of `_stat`: the name and the lines joined with `'\n'`; `DoStat` is proved to return it, and `StatTextLines`, `StatTextFresh` and `VoteBot.StatTextNotEmpty` state what it contains |
| `VoteMachine.StatLines` | votemachine.py:97-99 | one line `"<c>: <n>"` per choice, in the order of `choices`, with `n` the number of ballots for `c` |
| `VoteMachine.CountAfterVote` | votemachine.py:118 | recording a ballot moves the user from the old choice's count to the new one's and changes no other count (last vote wins) |
| `VoteMachine.CountEmpty` | votemachine.py:98 | with no ballots, `vote_stat.get(choice, 0)` is 0 for every choice |
| `VoteMachine.SumCountsIsVoters` | votemachine.py:89-92 | with distinct choices, the counts add up to the number of users who voted |
| `VoteMachine.StatTextLines` | votemachine.py:94-101 | the statistics text splits back into the poll name and one count line per choice |
| `VoteMachine.StatTextFresh` | votemachine.py:79-101 | right after `_start_vote` every choice shows the count 0 |
| `VoteMachine.Machine.constructor` | votemachine.py:56-64 | a new machine is in Wait with no name, no choices and no votes, and satisfies the invariant |
| `VoteMachine.Machine.DoStartVote` | votemachine.py:79-85 | `_start_vote` sets the name and choices to its arguments, empties `votes` and returns `'ok'` |
| `VoteMachine.Machine.DoStat` | votemachine.py:87-101 | the two loops, counting into a `Counter` and then rendering line by line, return exactly `StatText` of the poll |
| `VoteMachine.Machine.DoVote` | votemachine.py:103-120 | on a resolvable value, `votes[user]` becomes the resolved choice and all other entries stay the same; otherwise `'неверное значение'` and `votes` unchanged; the invariant is preserved |
| `VoteMachine.Machine.StartVote` | votemachine.py:30-35 | from Wait: `'ok'`, Active, new name and choices, empty votes; from Active: the "finish the current vote first" text (line 16) and nothing changes |
| `VoteMachine.Machine.StopVote` | votemachine.py:43-48 | from Active: the statistics of the poll just before the call, and the machine is in Wait with the poll data kept; from Wait: the refusal text (line 19) and nothing changes |
| `VoteMachine.Machine.Vote` | votemachine.py:40-41 | from Active: as `_vote`; from Wait: "no vote running" (line 22) and nothing changes |
| `VoteMachine.Machine.Stat` | votemachine.py:50-51 | from Active: the statistics text; from Wait: "no vote running" (line 25); the machine is only read |
| `VoteBot.Classify` | votemachine.py:164-204 | a start command carries at least one choice, its choices are exactly the lines after the first, and its name is newline-free and normalized; a vote value is non-empty, newline-free, and does not start with `start`/`stop`/`stat` |
| `VoteBot.ClassifyRender` | votemachine.py:164-204 | every help, start, missing-choices, stop, stat and vote command is classified back from the message that spells it, so no two commands share a message |
| `VoteBot.ClassifyNoTrigger` | votemachine.py:170-200 | a message whose first token is not `vote` gets no reply |
| `VoteBot.StatTextNotEmpty` | votemachine.py:206-207 | statistics over at least one choice are never empty, so they are always sent |
| `VoteBot.Dispatch` | votemachine.py:164-204 | help text or `'необходимо указать варианты'` without touching the machine; `start_vote(' '.join(tokens[2:]), lines[1:])`, `stop_vote`, `stat` or `vote(user, ' '.join(tokens[1:]))` with that operation's reply and effect; no reply and no change for anything else |
| `VoteBot.Outgoing` | votemachine.py:206-213 | nothing is sent for a missing or empty response; otherwise `@<name> ` followed by the response |
| `Scenarios.LunchStat` | votemachine.py:87-101 | after u1 votes 0, u2 votes Sushi and u1 votes 1, the statistics read `Lunch\nPizza: 0\nSushi: 2` |
| `Scenarios.NegativeIndexes` | votemachine.py:105-110 | with two choices, `-1` and `-2` select from the end and `-3` is rejected |
| `Scenarios.NumericChoiceIsAnIndex` | votemachine.py:105-116 | among the choices `7` and `Pizza`, the value `7` is rejected as an index out of range and the value `0` selects `7`; among `1` and `0`, the value `0` selects the choice at index 0, `1`, not the choice spelled `0` |
| `Scenarios.StartLunch` | votemachine.py:180-187 | `vote start Lunch\nPizza\nSushi` starts the poll "Lunch" with the choices Pizza and Sushi |
| `Scenarios.StatCommand` | votemachine.py:196-198 | the message `vote stat` is classified as the stat command |
| `Scenarios.StopCommand` | votemachine.py:192-194 | the message `vote stop` is classified as the stop command |
| `Scenarios.VoteZeroMessage` | votemachine.py:200-204 | the help text's example `vote 0` is a vote with the value `0` |
| `Scenarios.LunchPoll` | votemachine.py:124-134 | the whole lunch poll through the public operations: four ballots, a rejected `5`, stat and stop, then the Wait refusals, then a start with no choices, which the machine accepts |

## Left out

- The Slack transport is not modelled: `SlackClient` construction and `rtm_connect`, the `messages()` polling loop with its one-second sleep, the `users.info` lookup with its JSON decoding, and `rtm_send_message`. All of it is network I/O through a library outside this model. `Outgoing` takes the looked-up display name as a parameter and returns the text that would be sent.
- `settings.API_TOKEN` and the `__main__` start-up are configuration, not logic.
- The model follows Python 2.7, which the source is written for (`u''` literals, `unicode` message text).
- `PyText.ParseInt`: models `int()` as optional surrounding whitespace, an optional `+`/`-` sign directly followed by ASCII digits. It does not accept Unicode decimal digits, which Python 2.7's `int()` on `unicode` text converts. It does not accept whitespace between the sign and the digits, which Python 2.7's `int()` allows.
- `PyText.IsSpace`: the whitespace set is Python 2.7's `unicode.isspace`, from its Unicode 5.2 tables. It includes U+180E MONGOLIAN VOWEL SEPARATOR, which Python 3.4 and later no longer count as whitespace.
- `VoteBot.Classify`: on a message whose first line has no token, the source raises `IndexError` at `command[0]`, which ends the bot's run loop. The model returns `EmptyFirstLine`, which gives no reply and leaves the machine untouched. The crash itself is not modelled.
- Each state is an object with its own methods in the source. In the model the state is a `State` enum that each public method matches on. The behaviour is the same.
- `VoteMachine.Machine.DoStat`: the order in which the dictionary's entries are visited does not affect the counts. The model visits them in an arbitrary order.
- `VoteMachine.SumCountsIsVoters`: assumes distinct choices, which the source does not enforce. With a duplicated choice, that choice's count is shown, and summed, twice.
- `VoteMachine.StatTextLines`: assumes the name and the choices contain no newline. This is always true for polls started through the dispatcher, which take the choices from the message's lines.
- The difference between Python 2's `str` and `unicode` types is not modelled. All text is a sequence of Unicode characters, as the `unicode` message text the bot reads is.
