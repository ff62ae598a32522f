/** The command-challenge engine behind the Docker and the incident-response
    terminals: a catalogue of multi-step scenarios, a transcript of typed
    entries, and the three handlers that change them (submit a command, reset
    the scenario, move on to the next scenario). */
module ChallengeEngine {
  import opened Text

  /** The visual kind of a transcript line. */
  datatype Kind = Prompt | Input | Output | Error | Success

  datatype Entry = Entry(kind: Kind, text: string)

  datatype ScenarioStep = ScenarioStep(
    prompt: string,
    expectedCommands: seq<string>,
    hint: string,
    successMessage: string,
    output: string)

  /** `tag` is the scenario's `level` (Docker) or `severity` (incidents); it is
      only displayed. */
  datatype Scenario = Scenario(
    title: string,
    tag: string,
    description: string,
    steps: seq<ScenarioStep>)

  /** What one widget shows that the other does not: the emoji in front of
      the banner and the heading of the completion summary. */
  datatype Labels = Labels(icon: string, completionHeading: string)

  /** Every catalogue the engine is built over has a scenario, every scenario
      a step and every step an accepted command. */
  predicate ValidCatalogue(catalogue: seq<Scenario>) {
    && |catalogue| > 0
    && forall i :: 0 <= i < |catalogue| ==>
         && |catalogue[i].steps| > 0
         && forall j :: 0 <= j < |catalogue[i].steps| ==> |catalogue[i].steps[j].expectedCommands| > 0
  }

  /** True when some expected command, lower-cased, is included in `cmd`;
      the commands are tried in order. */
  function AnyIncluded(cmd: string, expected: seq<string>): bool {
    if expected == [] then false
    else Includes(cmd, ToLower(expected[0])) || AnyIncluded(cmd, expected[1..])
  }

  /** The `.some` scan finds a command exactly when one of them, lower-cased,
      occurs in `cmd`. */
  lemma {:induction false} AnyIncludedIff(cmd: string, expected: seq<string>)
    ensures AnyIncluded(cmd, expected) <==> exists k :: 0 <= k < |expected| && Includes(cmd, ToLower(expected[k]))
  {
    if expected != [] {
      AnyIncludedIff(cmd, expected[1..]);
      assert forall k :: 1 <= k < |expected| ==> expected[1..][k - 1] == expected[k];
    }
  }

  /** A submission satisfies a step when its trimmed, lower-cased text
      includes one of the step's commands, also lower-cased. */
  function Matches(step: ScenarioStep, input: string): bool {
    AnyIncluded(ToLower(Trim(input)), step.expectedCommands)
  }

  /** Accepted command `k`, lower-cased, occurs in `cmd` at position `i`. */
  ghost predicate CommandOccurs(cmd: string, commands: seq<string>, k: int, i: int) {
    0 <= k < |commands| && OccursAt(cmd, ToLower(commands[k]), i)
  }

  /** The `.some` scan, restated with the position of the occurrence. */
  lemma AnyIncludedOccurs(cmd: string, commands: seq<string>)
    ensures AnyIncluded(cmd, commands) <==> exists k, i :: CommandOccurs(cmd, commands, k, i)
  {
    AnyIncludedIff(cmd, commands);
    if AnyIncluded(cmd, commands) {
      var k :| 0 <= k < |commands| && Includes(cmd, ToLower(commands[k]));
      IncludesIff(cmd, ToLower(commands[k]));
      var i :| OccursAt(cmd, ToLower(commands[k]), i);
      assert CommandOccurs(cmd, commands, k, i);
    }
    if k, i :| CommandOccurs(cmd, commands, k, i) {
      IncludesIff(cmd, ToLower(commands[k]));
    }
  }

  /** Matching is case-insensitive substring containment of some accepted
      command. */
  lemma MatchesIff(step: ScenarioStep, input: string)
    ensures Matches(step, input) <==>
      exists k, i :: CommandOccurs(ToLower(Trim(input)), step.expectedCommands, k, i)
  {
    AnyIncludedOccurs(ToLower(Trim(input)), step.expectedCommands);
  }

  /** A submission whose trimmed, lower-cased text includes accepted command
      `k` satisfies the step. */
  lemma MatchesWhenIncluded(step: ScenarioStep, input: string, k: nat)
    requires k < |step.expectedCommands|
    requires Includes(ToLower(Trim(input)), ToLower(step.expectedCommands[k]))
    ensures Matches(step, input)
  {
    AnyIncludedIff(ToLower(Trim(input)), step.expectedCommands);
  }

  /** Typing an accepted command in any letter case, possibly followed by
      flags or arguments, with white space around it, satisfies the step. */
  lemma AcceptsCommandWithArguments(step: ScenarioStep, k: nat, pre: string, typed: string, args: string, post: string)
    requires k < |step.expectedCommands|
    requires ToLower(typed) == ToLower(step.expectedCommands[k])
    requires AllSpace(pre) && AllSpace(post)
    requires typed + args != [] ==> !IsSpace((typed + args)[0]) && !IsSpace((typed + args)[|typed + args| - 1])
    ensures Matches(step, pre + typed + args + post)
  {
    var w := typed + args;
    var input := pre + typed + args + post;
    assert input == pre + w + post;
    TrimPadded(pre, w, post);
    LowerIncludesPrefix(typed, args);
    MatchesWhenIncluded(step, input, k);
  }

  /** The echo of a submission keeps the user's letter case. */
  function Echo(input: string): Entry {
    Entry(Input, "$ " + Trim(input))
  }

  function Banner(labels: Labels, scenario: Scenario): string {
    labels.icon + " [" + scenario.tag + "] " + scenario.title
  }

  /** The three-line transcript a scenario starts from: the banner (shown in
      the error style), the briefing and the first prompt. */
  function Seed(labels: Labels, scenario: Scenario): (t: seq<Entry>)
    requires |scenario.steps| > 0
  {
    [Entry(Error, Banner(labels, scenario)),
     Entry(Output, scenario.description),
     Entry(Prompt, scenario.steps[0].prompt)]
  }

  /** The closing line once the last step is satisfied. */
  function Summary(labels: Labels, commands: nat, failed: nat): string {
    "\n\U{2501}\U{2501}\U{2501} " + labels.completionHeading + " \U{2501}\U{2501}\U{2501}\nTotal commands: "
      + NatToString(commands) + " | Failed attempts: " + NatToString(failed)
  }

  function HintLine(step: ScenarioStep): string {
    "Command not effective. Hint: " + step.hint
  }

  /** One mounted terminal widget. */
  class Engine {
    const catalogue: seq<Scenario>
    const labels: Labels
    var scenarioIdx: nat
    var stepIdx: nat
    var history: seq<Entry>
    var completed: bool
    var attempts: nat

    /** The indices stay inside the catalogue, completion happens only on the
        last step, and the transcript never holds fewer lines than a seed. */
    ghost predicate Valid()
      reads this
    {
      && ValidCatalogue(catalogue)
      && scenarioIdx < |catalogue|
      && stepIdx < |catalogue[scenarioIdx].steps|
      && (completed ==> stepIdx == |catalogue[scenarioIdx].steps| - 1)
      && |history| >= 3
    }

    /** Mounting: the initial state followed by the seeding effect. */
    constructor (catalogue: seq<Scenario>, labels: Labels)
      requires ValidCatalogue(catalogue)
      ensures Valid()
      ensures this.catalogue == catalogue && this.labels == labels
      ensures scenarioIdx == 0 && stepIdx == 0 && !completed && attempts == 0
      ensures history == Seed(labels, catalogue[0])
    {
      this.catalogue := catalogue;
      this.labels := labels;
      scenarioIdx, stepIdx := 0, 0;
      completed, attempts := false, 0;
      history := Seed(labels, catalogue[0]);
    }

    /** The submit handler. */
    method Submit(input: string)
      requires Valid()
      modifies this
      ensures Valid()
      ensures scenarioIdx == old(scenarioIdx)
      // blank input, or a finished scenario: nothing happens
      ensures Trim(input) == [] || old(completed) ==>
        stepIdx == old(stepIdx) && history == old(history) && completed == old(completed) && attempts == old(attempts)
      // otherwise the old transcript is kept and the echo comes next
      ensures Trim(input) != [] && !old(completed) ==>
        |history| > |old(history)| && history[..|old(history)|] == old(history) && history[|old(history)|] == Echo(input)
      // a match before the last step advances and shows the next prompt
      ensures
        var steps := catalogue[scenarioIdx].steps;
        var step := steps[old(stepIdx)];
        Trim(input) != [] && !old(completed) && Matches(step, input) && old(stepIdx) < |steps| - 1 ==>
          && stepIdx == old(stepIdx) + 1 && !completed && attempts == old(attempts)
          && history == old(history) + [Echo(input), Entry(Output, step.output), Entry(Success, step.successMessage),
                                        Entry(Prompt, steps[stepIdx].prompt)]
      // a match on the last step completes the scenario with a summary
      ensures
        var steps := catalogue[scenarioIdx].steps;
        var step := steps[old(stepIdx)];
        Trim(input) != [] && !old(completed) && Matches(step, input) && old(stepIdx) == |steps| - 1 ==>
          && stepIdx == old(stepIdx) && completed && attempts == old(attempts)
          && history == old(history) + [Echo(input), Entry(Output, step.output), Entry(Success, step.successMessage),
                                        Entry(Success, Summary(labels, old(stepIdx) + 1, old(attempts)))]
      // a mismatch counts one failed attempt and shows the hint
      ensures
        var step := catalogue[scenarioIdx].steps[old(stepIdx)];
        Trim(input) != [] && !old(completed) && !Matches(step, input) ==>
          && stepIdx == old(stepIdx) && !completed && attempts == old(attempts) + 1
          && history == old(history) + [Echo(input), Entry(Error, HintLine(step))]
    {
      var trimmed := Trim(input);
      if trimmed == [] || completed {
        return;
      }
      var cmd := ToLower(trimmed);
      var newHistory := history + [Entry(Input, "$ " + trimmed)];
      var scenario := catalogue[scenarioIdx];
      var step := scenario.steps[stepIdx];
      var isMatch := AnyIncluded(cmd, step.expectedCommands);
      if isMatch {
        newHistory := newHistory + [Entry(Output, step.output)];
        newHistory := newHistory + [Entry(Success, step.successMessage)];
        if stepIdx < |scenario.steps| - 1 {
          var nextStep := scenario.steps[stepIdx + 1];
          newHistory := newHistory + [Entry(Prompt, nextStep.prompt)];
          stepIdx := stepIdx + 1;
        } else {
          newHistory := newHistory + [Entry(Success, Summary(labels, stepIdx + 1, attempts))];
          completed := true;
        }
      } else {
        attempts := attempts + 1;
        newHistory := newHistory + [Entry(Error, HintLine(step))];
      }
      history := newHistory;
    }

    /** The "Next" handler. The transcript is re-seeded by the effect keyed on
        the scenario index, which runs only when that index changes. */
    method NextScenario()
      requires Valid()
      modifies this
      ensures Valid()
      ensures scenarioIdx == (old(scenarioIdx) + 1) % |catalogue|
      ensures stepIdx == 0 && !completed && attempts == 0
      ensures history == if scenarioIdx != old(scenarioIdx) then Seed(labels, catalogue[scenarioIdx]) else old(history)
    {
      var next := (scenarioIdx + 1) % |catalogue|;
      var changed := next != scenarioIdx;
      scenarioIdx := next;
      stepIdx := 0;
      completed := false;
      attempts := 0;
      if changed {
        history := Seed(labels, catalogue[scenarioIdx]);
      }
    }

    /** The reset handler: the current scenario from its first step. */
    method Reset()
      requires Valid()
      modifies this
      ensures Valid()
      ensures scenarioIdx == old(scenarioIdx)
      ensures stepIdx == 0 && !completed && attempts == 0
      ensures history == Seed(labels, catalogue[scenarioIdx])
    {
      stepIdx := 0;
      completed := false;
      attempts := 0;
      history := Seed(labels, catalogue[scenarioIdx]);
    }

    /** The counters in the header and footer: step `step` of `steps`,
        scenario `scenario` of `scenarios`, all counted from one. */
    method Progress() returns (step: nat, steps: nat, scenario: nat, scenarios: nat)
      requires Valid()
      ensures 1 <= step <= steps && step == stepIdx + 1 && steps == |catalogue[scenarioIdx].steps|
      ensures 1 <= scenario <= scenarios && scenario == scenarioIdx + 1 && scenarios == |catalogue|
    {
      step, steps := stepIdx + 1, |catalogue[scenarioIdx].steps|;
      scenario, scenarios := scenarioIdx + 1, |catalogue|;
    }
  }

  /** Wrapping: from the last scenario, "Next" returns to the first. */
  lemma NextWraps(n: nat, idx: nat)
    requires 0 < n && idx < n
    ensures (idx + 1) % n == if idx == n - 1 then 0 else idx + 1
  {
  }
}

/** The Docker CLI exercises widget. */
module DockerTerminal {
  import opened ChallengeEngine

  const DockerLabels := Labels("\U{1F433}", "Task Completed")

  method Mount(catalogue: seq<Scenario>) returns (e: Engine)
    requires ValidCatalogue(catalogue)
    ensures fresh(e) && e.Valid()
    ensures e.catalogue == catalogue && e.labels == DockerLabels
    ensures e.scenarioIdx == 0 && e.stepIdx == 0 && !e.completed && e.attempts == 0
    ensures e.history == Seed(DockerLabels, catalogue[0])
  {
    e := new Engine(catalogue, DockerLabels);
  }
}

/** The incident-response widget: the same engine with a severity banner. */
module IncidentResponseTerminal {
  import opened ChallengeEngine

  const IncidentLabels := Labels("\U{1F6A8}", "Incident Resolved")

  method Mount(catalogue: seq<Scenario>) returns (e: Engine)
    requires ValidCatalogue(catalogue)
    ensures fresh(e) && e.Valid()
    ensures e.catalogue == catalogue && e.labels == IncidentLabels
    ensures e.scenarioIdx == 0 && e.stepIdx == 0 && !e.completed && e.attempts == 0
    ensures e.history == Seed(IncidentLabels, catalogue[0])
  {
    e := new Engine(catalogue, IncidentLabels);
  }
}

