# Game widgets of the DevOps portfolio, modelled in Dafny

This project models the three small state machines behind the portfolio's
interactive widgets, and proves properties about them:

- **The command-challenge engine.** The Docker CLI terminal and the
  incident-response terminal run the same handlers. Only three things differ:
  the catalogue, the banner emoji (🐳 or 🚨, followed by the scenario's
  `level` or `severity`) and the completion heading ("Task Completed" or
  "Incident Resolved").
  - `ChallengeEngine.Engine` is a class holding the widget's state: scenario
    index, step index, transcript, completion flag and failed attempts.
  - Its methods are `Submit`, `Reset` and `NextScenario`.
  - The catalogue and the labels are parameters. `DockerTerminal.Mount` and
    `IncidentResponseTerminal.Mount` instantiate the engine for each widget.
  - A submission is trimmed with JavaScript's `trim`, lower-cased, and
    matched against the current step's accepted commands by substring
    containment. These string operations are in module `Text`.
- **The load-balancer game.** `LoadBalancerGame.Game` has three servers, a
  FIFO queue of request timestamps, a score and a game-over flag.
  - Routing and the two interval bodies are methods. The interval bodies are
    the decay tick and the enqueue tick.
  - The per-server updates inside `map` are pure functions: `Decayed` and
    `Routed`.
  - Lemmas prove a consistency invariant for every step of a game:
    - every load is a multiple of ten;
    - every load is at most 100 while the game runs;
    - no server is ever `unhealthy`;
    - the game is over exactly when some load exceeds 100.
- **The CIDR quiz.** `CidrQuiz.Quiz` holds the quiz state: the current
  question, the locked selection with its verdict, the score and the
  result-screen flag.
  - The four questions are transcribed verbatim.
  - Module `Prefix` defines prefix arithmetic on 32-bit IPv4 addresses, in
    the notation of section 3.1 of RFC 4632. It covers the mask of a "/n"
    prefix, the wildcard mask, the usable host count and dotted-decimal
    rendering.
  - `CidrQuiz.AnswerKeyAgrees` proves that in each question exactly the
    option at the answer key agrees with that arithmetic.

## How the model reads the source

- **React state updates.** In each handler they are taken in order, one user
  action or timer tick at a time. The `setX(prev => …)` updaters and the
  plain `setX(v)` calls give the same result under this reading.
- **Re-seeding on "Next".** In both terminals only the effect keyed on the
  scenario index re-seeds the transcript.
  - `NextScenario` re-seeds only when the new index differs from the old one.
  - With a one-scenario catalogue the index stays the same, so "Next" clears
    the step, completion and attempts but keeps the old transcript.
  - Unlike `reset` (src/components/games/docker-terminal.tsx:83-93), which
    always rebuilds the transcript, "Next" on a one-scenario catalogue keeps
    it, because the effect at lines 26-32 runs only when the index changes.
- **Game over in the load balancer.** The flag is raised inside the
  `servers.map` callback. `RouteRequest` sets it exactly when the routed
  server's load would pass 100. Every other route leaves it unchanged.

## Model

| member | source | states |
|---|---|---|
| Text.TrimStart | src/components/games/docker-terminal.tsx:43 | leading part of `trim`: the result is a suffix of the input that does not start with white space, and everything dropped is white space |
| Text.IsSpace | src/components/games/docker-terminal.tsx:43 | the characters `trim` strips: the WhiteSpace and LineTerminator code points of ECMAScript (tab, line feed, vertical tab, form feed, carriage return, space, no-break space, the Unicode space separators, line and paragraph separator, byte-order mark); `TrimStart`, `TrimEnd` and `TrimPadded` are stated over it |
| Text.TrimEnd | src/components/games/docker-terminal.tsx:43 | trailing part of `trim`: the result is a prefix that does not end with white space, and everything dropped is white space |
| Text.Trim | src/components/games/docker-terminal.tsx:45 | a non-empty trimmed string neither starts nor ends with white space |
| Text.TrimEmptyIffBlank | src/components/games/docker-terminal.tsx:43 | `!input.trim()` holds exactly when every character of the input is white space |
| Text.TrimPadded | src/components/games/docker-terminal.tsx:45-46 | white space around a word with non-space ends is exactly what `trim` removes |
| Text.TrimIdempotent | src/components/games/docker-terminal.tsx:45-46 | a general property of `trim`: its result has nothing left to strip, so trimming it again changes nothing |
| Text.LowerIdempotent | src/components/games/docker-terminal.tsx:45 | lower-cased text has no upper-case letter left, and lower-casing it again changes nothing |
| Text.LowerChar | src/components/games/docker-terminal.tsx:45 | `toLowerCase` on one character: A–Z map to a–z, every other character is kept (see "## Left out") |
| Text.ToLower | src/components/games/docker-terminal.tsx:45 | `toLowerCase` under the ASCII case map, one character at a time (see "## Left out"); characterised by `LowerIdempotent` and used through `LowerIncludesPrefix` |
| Text.Includes | src/components/games/docker-terminal.tsx:50 | `cmd.includes(t)` as a scan over the start positions; `IncludesIff` proves it equal to "t occurs at some position" |
| Text.IncludesIff | src/components/games/docker-terminal.tsx:50 | `cmd.includes(t)` holds exactly when `t` occurs in `cmd` at some position |
| Text.IncludesInfix | src/components/games/docker-terminal.tsx:50 | a string includes any of its infixes |
| Text.LowerIncludesPrefix | src/components/games/docker-terminal.tsx:45-50 | a lower-cased command followed by arguments still includes the lower-cased command |
| Text.NatToString | src/components/games/docker-terminal.tsx:62 | `${n}` renders as a non-empty string of decimal digits |
| Text.NatToStringRoundTrip | src/components/games/docker-terminal.tsx:62 | the rendering reads back as the same number and has no leading zero except for 0 |
| Text.NatToStringInjective | src/components/games/docker-terminal.tsx:62 | different counters show different summary text |
| ChallengeEngine.AnyIncludedIff | src/components/games/docker-terminal.tsx:49-51 | the `.some` scan succeeds exactly when some accepted command, lower-cased, is included in the typed command |
| ChallengeEngine.AnyIncluded | src/components/games/docker-terminal.tsx:49-51 | the `.some` scan over the accepted commands; characterised in both directions by `AnyIncludedIff` and `AnyIncludedOccurs` |
| ChallengeEngine.Matches | src/components/games/docker-terminal.tsx:45-51 | the match test on the trimmed, lower-cased submission; characterised in both directions by `MatchesIff` |
| ChallengeEngine.AnyIncludedOccurs | src/components/games/docker-terminal.tsx:49-51 | the `.some` scan succeeds exactly when some accepted command occurs at some position of the typed command |
| ChallengeEngine.MatchesIff | src/components/games/docker-terminal.tsx:45-51 | a submission matches exactly when `lower(trim(input))` contains `lower(e)` for some accepted `e` (both directions) |
| ChallengeEngine.MatchesWhenIncluded | src/components/games/incident-response-terminal.tsx:45-51 | containing any one accepted command is enough to match |
| ChallengeEngine.AcceptsCommandWithArguments | src/components/games/docker-terminal.tsx:43-51 | an accepted command in any letter case, followed by arguments and surrounded by white space, matches the step |
| ChallengeEngine.Echo | src/components/games/docker-terminal.tsx:46 | the input entry `"$ " + input.trim()`, keeping the typed letter case; `Submit` appends it right after the old transcript |
| ChallengeEngine.Banner | src/components/games/docker-terminal.tsx:28 | the banner text: icon, the scenario's level or severity in brackets, then the title |
| ChallengeEngine.Seed | src/components/games/docker-terminal.tsx:26-32 | the three-entry transcript (banner as an error line, description, first prompt) that mounting, a scenario change and `Reset` produce; the `constructor`, `NextScenario` and `Reset` contracts use it |
| ChallengeEngine.Summary | src/components/games/docker-terminal.tsx:62 | the completion line with the heading, `stepIdx + 1` commands and the failed attempts, the counters rendered by `NatToString` (round trip in `NatToStringRoundTrip`) |
| ChallengeEngine.HintLine | src/components/games/docker-terminal.tsx:67 | the mismatch line `"Command not effective. Hint: " + step.hint`; the mismatch case of `Submit` appends exactly it after the echo |
| ChallengeEngine.Engine.constructor | src/components/games/docker-terminal.tsx:13-32 | mounting starts at scenario 0, step 0, not completed, no attempts, with the three-line seed transcript |
| ChallengeEngine.Engine.Submit | src/components/games/docker-terminal.tsx:41-72 | no-op on blank input or once completed; otherwise the old transcript and then the echo `"$ " + trim(input)`; on a non-final match output, success and next prompt with the step advanced; on the final match output, success and the summary of `stepIdx+1` commands and `attempts` failures, completing; on a mismatch one more attempt and the hint line; the indices stay in range |
| ChallengeEngine.Engine.NextScenario | src/components/games/docker-terminal.tsx:74-81 | the index becomes `(scenarioIdx + 1) % |catalogue|` and step, completion and attempts are cleared; the transcript is re-seeded exactly when the index changed (the effect at lines 26-32) |
| ChallengeEngine.Engine.Reset | src/components/games/docker-terminal.tsx:83-93 | keeps the scenario, clears step, completion and attempts, and makes the transcript exactly banner, description and first prompt, whatever came before |
| ChallengeEngine.Engine.Progress | src/components/games/docker-terminal.tsx:110-112 | the header's counter "step/steps" (and the footer's "scenario/scenarios" at line 175) stays between 1 and the total |
| ChallengeEngine.NextWraps | src/components/games/incident-response-terminal.tsx:75 | from the last incident "Next" returns to the first, from any other it moves one on |
| DockerTerminal.Mount | src/components/games/docker-terminal.tsx:12-32 | the Docker widget is the engine with the 🐳 banner and the "Task Completed" heading, seeded from its first scenario |
| IncidentResponseTerminal.Mount | src/components/games/incident-response-terminal.tsx:12-32 | the incident widget is the engine with the 🚨 banner and the "Incident Resolved" heading, seeded from its first incident |
| LoadBalancerGame.InitialConsistent | src/components/games/load-balancer-game.tsx:19-23 | the three idle healthy servers satisfy the game invariant with the game running |
| LoadBalancerGame.InitialServers | src/components/games/load-balancer-game.tsx:19-23 | the three servers with ids 1 to 3, load 0 and healthy, the initial state and the state `resetGame` restores (lines 85-89); used by the `constructor` and `ResetGame` contracts, and `InitialConsistent` proves it consistent |
| LoadBalancerGame.ServerOk | src/components/games/load-balancer-game.tsx:67-75 | the per-server invariant: load a multiple of 10 in 0..120, never unhealthy, overloaded above 80 and overloaded only from 80 on |
| LoadBalancerGame.Consistent | src/components/games/load-balancer-game.tsx:19-23 | the game invariant: servers 1 to 3, each `ServerOk`, and the game over exactly when some load exceeds 100; kept by `RoutePreservesConsistency` and `DecayPreservesConsistency` |
| LoadBalancerGame.LoadBoundedWhilePlaying | src/components/games/load-balancer-game.tsx:67-75 | while the game is not over every load is at most 100 |
| LoadBalancerGame.RouteOnlyChosen | src/components/games/load-balancer-game.tsx:63-79 | routing keeps the list's length and ids, adds exactly 20 to the chosen server, makes it overloaded above 80 and otherwise keeps its status, and leaves every other server untouched |
| LoadBalancerGame.Routed | src/components/games/load-balancer-game.tsx:67-77 | one routed server: load + 20, overloaded above 100 or above 80, else the old status; characterised by `RoutedOk` and `RouteOnlyChosen` |
| LoadBalancerGame.RouteAll | src/components/games/load-balancer-game.tsx:63-78 | the `servers.map` of the routing handler: servers with the chosen id are routed, the rest kept; characterised by `RouteOnlyChosen` |
| LoadBalancerGame.Overflows | src/components/games/load-balancer-game.tsx:70-71 | the game-over test `newLoad > 100` for one routed server; `Routed` uses it for its status and `RoutedOk` proves it holds exactly when the routed load passes 100 |
| LoadBalancerGame.RouteOverflows | src/components/games/load-balancer-game.tsx:70-71 | some server with the chosen id overflows while being routed to, which is when `setGameOver(true)` runs; `RoutePreservesConsistency` proves it equal to "some load exceeds 100" after routing, and `Game.RouteRequest` sets `gameOver` to it |
| LoadBalancerGame.RoutedOk | src/components/games/load-balancer-game.tsx:67-77 | routing to a consistent server keeps it consistent, and it passes 100 exactly when it overflows |
| LoadBalancerGame.RoutePreservesConsistency | src/components/games/load-balancer-game.tsx:63-79 | routing in a running game keeps the invariant, with the game over afterwards exactly when the chosen server overflowed |
| LoadBalancerGame.DecayedOk | src/components/games/load-balancer-game.tsx:45-49 | one decay step keeps a server consistent and never raises its load |
| LoadBalancerGame.Decayed | src/components/games/load-balancer-game.tsx:45-49 | one decayed server: load `max(0, load - 10)`, status overloaded if the old load was above 80, else unhealthy kept, else healthy; characterised by `DecayedOk` |
| LoadBalancerGame.DecayAll | src/components/games/load-balancer-game.tsx:44-49 | the `prev.map` of the decay tick over every server; characterised by `DecayPreservesConsistency` |
| LoadBalancerGame.DecayPreservesConsistency | src/components/games/load-balancer-game.tsx:44-50 | the decay tick keeps the invariant and the game running, and every new load lies between 0 and the old load |
| LoadBalancerGame.Game.constructor | src/components/games/load-balancer-game.tsx:19-26 | the game starts with the three idle servers, score 0, not over and an empty queue |
| LoadBalancerGame.Game.RouteRequest | src/components/games/load-balancer-game.tsx:56-82 | no-op when the game is over or the queue is empty; otherwise the front request leaves the queue, the servers are routed, the game ends exactly on overflow and the score gains 10; the invariant is kept |
| LoadBalancerGame.Game.DecayTick | src/components/games/load-balancer-game.tsx:40-54 | when running, every server decays by `max(0, load - 10)` with its status from the pre-decay load; no-op once over; nothing else changes |
| LoadBalancerGame.Game.EnqueueTick | src/components/games/load-balancer-game.tsx:29-37 | when running, the new timestamp joins the back of the queue; no-op once over; nothing else changes |
| LoadBalancerGame.Game.ResetGame | src/components/games/load-balancer-game.tsx:84-93 | three servers with ids 1 to 3, load 0 and healthy, score 0, not over, empty queue, from any state |
| Prefix.Pow2Add | src/components/games/cidr-quiz.tsx:31 | 2^(a+b) = 2^a · 2^b |
| Prefix.Pow2Increasing | src/components/games/cidr-quiz.tsx:31 | powers of two grow strictly with the exponent |
| Prefix.Pow2Values | src/components/games/cidr-quiz.tsx:31 | 2^4 = 16 and the powers 2^8, 2^16, 2^24 and 2^32 that octets use |
| Prefix.Mask | src/components/games/cidr-quiz.tsx:24 | the subnet mask of "/n": the top n of 32 bits set one at a time; closed form in `MaskClosedForm`, order and injectivity in `MaskIncreasing` and `MaskInjective` |
| Prefix.MaskClosedForm | src/components/games/cidr-quiz.tsx:24 | setting the top n of 32 bits gives 2^32 − 2^(32−n) |
| Prefix.MaskFits | src/components/games/cidr-quiz.tsx:24 | every mask is a 32-bit value |
| Prefix.MaskIncreasing | src/components/games/cidr-quiz.tsx:38 | a longer prefix has a strictly larger mask |
| Prefix.MaskInjective | src/components/games/cidr-quiz.tsx:38 | a mask names exactly one prefix length |
| Prefix.Wildcard | src/components/games/cidr-quiz.tsx:45 | the wildcard mask: all 32 ones minus the subnet mask; characterised by `WildcardIsHostBits` and, as a bitwise NOT, by `Wildcard24IsNot` |
| Prefix.WildcardIsHostBits | src/components/games/cidr-quiz.tsx:45 | the wildcard sets exactly the low 32 − n host bits, and mask plus wildcard is all ones |
| Prefix.UsableHosts | src/components/games/cidr-quiz.tsx:31 | the usable addresses of "/n": 2^(32−n) minus the network and the broadcast address; `UsableHosts28Value` gives 14 for /28 |
| Prefix.DottedQuad | src/components/games/cidr-quiz.tsx:22 | dotted-decimal notation: the four octets, most significant first, joined by dots; characterised by `DottedQuadOctets` |
| Prefix.DottedQuadOctets | src/components/games/cidr-quiz.tsx:22 | an address built from four octets renders as those octets joined by dots |
| CidrQuiz.Questions | src/components/games/cidr-quiz.tsx:18-47 | the four questions transcribed verbatim: id, question text, options, answer key and explanation; `AnswerKeysInRange`, `KeyedOption` and `AnswerKeyAgrees` are proved about it |
| CidrQuiz.AnswerKeysInRange | src/components/games/cidr-quiz.tsx:18-47 | there are four questions and every `correctAnswer` indexes its options |
| CidrQuiz.Agrees | src/components/games/cidr-quiz.tsx:18-47 | what prefix arithmetic says each question's answer is: the rendered /24 mask, the /28 host count, a prefix whose mask is 255.255.255.192, the rendered /24 wildcard; `AgreesIff` turns it into one string per question |
| CidrQuiz.Mask24Value | src/components/games/cidr-quiz.tsx:24 | the /24 mask is the address 255.255.255.0 |
| CidrQuiz.Mask26Value | src/components/games/cidr-quiz.tsx:38 | the /26 mask is the address 255.255.255.192 |
| CidrQuiz.Wildcard24Value | src/components/games/cidr-quiz.tsx:45 | the /24 wildcard is the address 0.0.0.255 |
| CidrQuiz.UsableHosts28Value | src/components/games/cidr-quiz.tsx:31 | a /28 subnet has 2^4 − 2 = 14 usable addresses |
| CidrQuiz.RenderedMask24 | src/components/games/cidr-quiz.tsx:22-24 | the /24 mask renders as "255.255.255.0" |
| CidrQuiz.RenderedWildcard24 | src/components/games/cidr-quiz.tsx:43-45 | the /24 wildcard renders as "0.0.0.255" |
| CidrQuiz.OnlySlash26 | src/components/games/cidr-quiz.tsx:35-38 | only the /26 prefix has the mask 255.255.255.192 |
| CidrQuiz.SubnetMaskAgrees | src/components/games/cidr-quiz.tsx:21-24 | an option agrees with the /24 mask exactly when it is "255.255.255.0" |
| CidrQuiz.UsableHostsAgrees | src/components/games/cidr-quiz.tsx:28-31 | an option agrees with the /28 host count exactly when it is "14" |
| CidrQuiz.PrefixOfMaskAgrees | src/components/games/cidr-quiz.tsx:35-38 | an option names a prefix whose mask is 255.255.255.192 exactly when it is "/26" |
| CidrQuiz.WildcardAgrees | src/components/games/cidr-quiz.tsx:42-45 | an option agrees with the /24 wildcard exactly when it is "0.0.0.255" |
| CidrQuiz.AgreesIff | src/components/games/cidr-quiz.tsx:18-47 | for each question, an option agrees with the arithmetic exactly when it is the computed answer |
| CidrQuiz.KeyedOption | src/components/games/cidr-quiz.tsx:18-47 | each question lists the computed answer once, at its `correctAnswer` |
| CidrQuiz.AnswerKeyAgrees | src/components/games/cidr-quiz.tsx:18-47 | in every question the option agreeing with prefix arithmetic is exactly the one at `correctAnswer` |
| CidrQuiz.Wildcard24IsNot | src/components/games/cidr-quiz.tsx:45 | the /24 mask and wildcard are one 32-bit word and its bitwise NOT |
| CidrQuiz.Quiz.constructor | src/components/games/cidr-quiz.tsx:50-54 | the quiz starts at question 0 with no selection, no verdict, score 0 and no result screen |
| CidrQuiz.Quiz.HandleOptionClick | src/components/games/cidr-quiz.tsx:56-63 | once an option is chosen further clicks change nothing; otherwise the click is recorded, the verdict is whether it is the answer key, and the score rises by 1 exactly when it is; the score stays at most the questions answered |
| CidrQuiz.Quiz.NextQuestion | src/components/games/cidr-quiz.tsx:65-73 | before the last question it advances and clears the selection; on the last one it shows the result and keeps the question; the score and the bound on it are kept |
| CidrQuiz.Quiz.ResetQuiz | src/components/games/cidr-quiz.tsx:75-81 | question 0, no selection, no verdict, score 0, no result screen, from any state |
| CidrQuiz.Quiz.Result | src/components/games/cidr-quiz.tsx:95-98 | the result screen shows `score / 4`, the score never exceeds 4, and "Perfect!" appears exactly when they are equal |

## Left out

- Rendering is not modelled. This covers markup, styling, framer-motion
  animation, auto-scroll, input focus and the page layout.
- The controlled `input` field is not modelled. Only the value submitted by
  the form enters the model, as the argument of `Submit`.
- The `setInterval` timers are not modelled. Their bodies are the methods
  `DecayTick` and `EnqueueTick`. So is the interplay of timers with user
  events, which arrive in some order chosen by the caller.
- `Date.now()` is not modelled. Each queued request is an opaque integer
  passed to `EnqueueTick`.
- The scenario catalogues in `src/lib/game-data/` are content. They are an
  abstract parameter of the engine. The engine assumes the catalogue has a
  scenario, every scenario has a step and every step has an accepted command.
- The kubernetes terminal is not part of this model.
- Text.ToLower: lower-cases character by character and keeps the length.
  JavaScript's `toLowerCase` does both only under this ASCII case map. In
  general it can lengthen a string ("İ", U+0130, becomes two code points)
  and depends on context (final sigma).
- Text.LowerChar: `toLowerCase` is modelled for the ASCII letters only. Other
  characters are left unchanged. Unicode case mapping of non-ASCII letters is
  not modelled.
- Text.NatToString: JavaScript numbers are doubles, and `${n}` switches to
  exponent notation from 10^21; the model renders every `nat` in plain
  decimal. Likewise `attempts`, `stepIdx` and both scores are unbounded
  integers here, while in JavaScript they would stop changing at 2^53. No
  play reaches either value.
- The banner emoji and the box-drawing characters of the summary are plain
  code points inside opaque strings.
- The wildcard mask is defined arithmetically, as 2^32 − 1 − mask.
- CidrQuiz.Wildcard24IsNot: it checks the bitwise NOT against that
  definition for the /24 prefix only. A bit-vector proof for every prefix
  length was not carried out.
- The quiz's result text other than the score and the "Perfect!" test is
  presentation.
- The "Next Question" button is shown only after a selection
  (src/components/games/cidr-quiz.tsx:148). The model does not need that
  guard: the score bound holds for every sequence of calls.
