/** `tools/ci/check_governance_gate.py`: the wrapper in front of the workflow cookbook's
    governance gate. It strips its own `--use-sample-pr-body` flag from the arguments, decides
    whether to substitute the bundled sample pull-request body, and forwards the rest. */
module GovernanceWrapper {
  import opened Wrappers

  const SampleFlag := "--use-sample-pr-body"

  /** The environment variables that identify a pull-request event. */
  const EventVariables: set<string> := {"GITHUB_EVENT_PATH", "GITHUB_EVENT_NAME"}

  /** The event names that count as pull-request events. */
  const PullRequestEvents: set<string> := {"pull_request", "pull_request_target"}

  // ---------------------------------------------------------------------------
  // _prepare_arguments

  /** The arguments without any occurrence of the sample flag, in their order. */
  function WithoutFlag(argv: seq<string>): seq<string> {
    if argv == [] then []
    else WithoutFlag(argv[..|argv| - 1]) + (if argv[|argv| - 1] == SampleFlag then [] else [argv[|argv| - 1]])
  }

  /** `_prepare_arguments`: `None` counts as no arguments. */
  method PrepareArguments(argv: Option<seq<string>>) returns (filtered: seq<string>, useSample: bool)
    ensures filtered == WithoutFlag(argv.GetOr([]))
    ensures useSample <==> SampleFlag in argv.GetOr([])
  {
    var args := if argv.Some? then argv.value else [];
    filtered, useSample := [], false;
    for i := 0 to |args|
      invariant filtered == WithoutFlag(args[..i])
      invariant useSample <==> SampleFlag in args[..i]
    {
      assert args[..i + 1][..i] == args[..i];
      assert args[..i + 1] == args[..i] + [args[i]];
      if args[i] == SampleFlag {
        useSample := true;
        continue;
      }
      filtered := filtered + [args[i]];
    }
    assert args[..|args|] == args;
  }

  /** The flag never survives, every other argument survives as often as it occurred, and
      nothing else is added. */
  lemma {:induction false} WithoutFlagCounts(argv: seq<string>)
    ensures SampleFlag !in WithoutFlag(argv)
    ensures forall x :: x != SampleFlag ==> multiset(WithoutFlag(argv))[x] == multiset(argv)[x]
    ensures |WithoutFlag(argv)| == |argv| - multiset(argv)[SampleFlag]
    decreases |argv|
  {
    if argv != [] {
      var front := argv[..|argv| - 1];
      assert argv == front + [argv[|argv| - 1]];
      WithoutFlagCounts(front);
    }
  }

  /** Removing the flag keeps the relative order: it distributes over concatenation. */
  lemma {:induction false} WithoutFlagConcat(a: seq<string>, b: seq<string>)
    ensures WithoutFlag(a + b) == WithoutFlag(a) + WithoutFlag(b)
    decreases |b|
  {
    if b == [] {
      assert a + b == a;
    } else {
      var front := b[..|b| - 1];
      assert (a + b)[..|a + b| - 1] == a + front;
      assert (a + b)[|a + b| - 1] == b[|b| - 1];
      WithoutFlagConcat(a, front);
    }
  }

  /** Arguments without the flag are forwarded unchanged. */
  lemma {:induction false} WithoutFlagIdentity(argv: seq<string>)
    requires SampleFlag !in argv
    ensures WithoutFlag(argv) == argv
    decreases |argv|
  {
    if argv != [] {
      var front := argv[..|argv| - 1];
      assert argv == front + [argv[|argv| - 1]];
      WithoutFlagIdentity(front);
    }
  }

  // ---------------------------------------------------------------------------
  // _should_use_sample

  /** `os.environ.get(name)` is truthy: set and not empty. */
  predicate IsSet(env: map<string, string>, name: string) {
    name in env && env[name] != ""
  }

  /** `_should_use_sample`: the flag forces the sample; otherwise a non-empty `PR_BODY`
      wins, a missing event path means there is nothing else to read, and a known event
      that is not a pull-request event has no body. An unset event name keeps the event. */
  function ShouldUseSample(useSampleFlag: bool, env: map<string, string>): (r: bool)
    ensures useSampleFlag ==> r
    ensures !useSampleFlag && IsSet(env, "PR_BODY") ==> !r
    ensures !useSampleFlag && !IsSet(env, "PR_BODY") && !IsSet(env, "GITHUB_EVENT_PATH") ==> r
    ensures !useSampleFlag && !IsSet(env, "PR_BODY") && IsSet(env, "GITHUB_EVENT_PATH") ==>
              (r <==> "GITHUB_EVENT_NAME" in env && env["GITHUB_EVENT_NAME"] !in PullRequestEvents)
  {
    if useSampleFlag then true
    else if IsSet(env, "PR_BODY") then false
    else if !IsSet(env, "GITHUB_EVENT_PATH") then true
    else if "GITHUB_EVENT_NAME" !in env then false
    else env["GITHUB_EVENT_NAME"] !in PullRequestEvents
  }

  // ---------------------------------------------------------------------------
  // main

  /** What the wrapper hands to the gate's `main`: the environment it runs in and the
      arguments it forwards. */
  datatype Handoff = Handoff(env: map<string, string>, forwarded: Option<seq<string>>)

  /** The environment after the sample is applied: `PR_BODY` holds it and the event
      variables are gone. */
  function WithSample(env: map<string, string>, sample: string): (r: map<string, string>)
    ensures "PR_BODY" in r && r["PR_BODY"] == sample
    ensures forall v :: v in EventVariables ==> v !in r
    ensures forall k :: k in env && k != "PR_BODY" && k !in EventVariables ==> k in r && r[k] == env[k]
    ensures forall k :: k in r ==> k in env || k == "PR_BODY"
  {
    env["PR_BODY" := sample] - EventVariables
  }

  /** The decisions of `main` up to the call into the gate. `sample` is the bundled sample
      body, `None` when the file is missing, which raises `FileNotFoundError` only when the
      sample is needed. */
  function WrapperHandoff(argv: Option<seq<string>>, env: map<string, string>, sample: Option<string>)
    : (r: Result<Handoff, string>)
    ensures r.Ok? ==> (r.value.forwarded.None? <==> argv.None?)
    ensures r.Ok? && argv.Some? ==> r.value.forwarded == Some(WithoutFlag(argv.value))
    ensures argv.None? ==> r == Ok(Handoff(env, None))
  {
    var args := argv.GetOr([]);
    var apply := argv.Some? && ShouldUseSample(SampleFlag in args, env);
    if apply && sample.None? then Err("sample body missing")
    else
      var newEnv := if apply then WithSample(env, sample.value) else env;
      Ok(Handoff(newEnv, if argv.None? then None else Some(WithoutFlag(args))))
  }

  /** With the flag and the sample present, the gate reads the sample as the body: `PR_BODY`
      holds it and no event file is consulted. */
  lemma FlagAppliesSample(argv: seq<string>, env: map<string, string>, sample: string)
    requires SampleFlag in argv
    ensures var r := WrapperHandoff(Some(argv), env, Some(sample));
            r.Ok? && "PR_BODY" in r.value.env && r.value.env["PR_BODY"] == sample
            && "GITHUB_EVENT_PATH" !in r.value.env && "GITHUB_EVENT_NAME" !in r.value.env
  {
  }

  /** Without the flag, a pull-request event with its event file is left to the gate: the
      environment is untouched, so a missing sample file does not matter. */
  lemma PullRequestEventKept(argv: seq<string>, env: map<string, string>, sample: Option<string>)
    requires SampleFlag !in argv
    requires !IsSet(env, "PR_BODY") && IsSet(env, "GITHUB_EVENT_PATH")
    requires "GITHUB_EVENT_NAME" in env && env["GITHUB_EVENT_NAME"] in PullRequestEvents
    ensures WrapperHandoff(Some(argv), env, sample) == Ok(Handoff(env, Some(argv)))
  {
    WithoutFlagIdentity(argv);
  }

  /** Once a non-empty sample is applied, asking again (without the flag) keeps the body. */
  lemma SampleSettles(env: map<string, string>, sample: string)
    requires sample != ""
    ensures !ShouldUseSample(false, WithSample(env, sample))
  {
  }
}
