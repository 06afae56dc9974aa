/** The process executor as an oracle. The plugin hands every git command to
    an executor and throws when it reports failure; the model makes the
    executor a parameter and records every command issued, in order. */
module Process {
  import opened Results

  /** One run of the git executable: its path, argument list and working
      directory. Arguments are kept as a list, without shell quoting. */
  datatype Invocation = Invocation(executable: string, args: seq<string>, directory: string)

  /** What the executor reports: the standard output of a successful run, or
      the message of the exception a failed run raises. */
  datatype Outcome = Ok(stdout: string) | Fail(message: string)

  type Executor = Invocation -> Outcome

  /** What an operation did: the commands it issued, in order, and its value
      or the exception it let escape. */
  datatype Run<+T> = Run(trace: seq<Invocation>, result: Result<T>)

  /** Every command in `cmds` succeeds. */
  predicate AllOk(cmds: seq<Invocation>, exec: Executor) {
    forall i :: 0 <= i < |cmds| ==> exec(cmds[i]).Ok?
  }

  /** A list is all successful when its head and its tail are. */
  lemma AllOkCons(c: Invocation, cmds: seq<Invocation>, exec: Executor)
    ensures AllOk([c] + cmds, exec) <==> exec(c).Ok? && AllOk(cmds, exec)
  {
    var all := [c] + cmds;
    assert all[0] == c;
    assert forall i :: 0 <= i < |cmds| ==> all[i + 1] == cmds[i];
    if exec(c).Ok? && AllOk(cmds, exec) {
      forall i | 0 <= i < |all|
        ensures exec(all[i]).Ok?
      {
        if i > 0 {
          assert all[i] == cmds[i - 1];
        }
      }
    }
  }

  /** Issues one command; a failure becomes an exception. */
  function Execute(c: Invocation, exec: Executor): Run<string> {
    match exec(c)
    case Ok(out) => Run([c], Success(out))
    case Fail(m) => Run([c], Failure(CommandFailed(m)))
  }

  /** Issues `cmds` in order and stops at the first failure, which escapes;
      commands after it are never issued. */
  function RunAll(cmds: seq<Invocation>, exec: Executor): (r: Run<()>)
    ensures r.trace <= cmds
    ensures r.result.Success? <==> AllOk(cmds, exec)
    ensures r.result.Success? ==> r == Run(cmds, Success(()))
    ensures r.result.Failure? ==>
              && |r.trace| > 0
              && AllOk(r.trace[..|r.trace| - 1], exec)
              && exec(r.trace[|r.trace| - 1]).Fail?
              && r.result.error == CommandFailed(exec(r.trace[|r.trace| - 1]).message)
    decreases |cmds|
  {
    if |cmds| == 0 then
      Run([], Success(()))
    else
      match exec(cmds[0])
      case Fail(m) => Run([cmds[0]], Failure(CommandFailed(m)))
      case Ok(_) =>
        var rest := RunAll(cmds[1..], exec);
        var trace := [cmds[0]] + rest.trace;
        assert trace <= cmds by {
          assert cmds == [cmds[0]] + cmds[1..];
        }
        assert cmds == [cmds[0]] + cmds[1..];
        AllOkCons(cmds[0], cmds[1..], exec);
        assert rest.result.Failure? ==>
                 trace[..|trace| - 1] == [cmds[0]] + rest.trace[..|rest.trace| - 1];
        if rest.result.Failure? then
          AllOkCons(cmds[0], rest.trace[..|rest.trace| - 1], exec);
          Run(trace, rest.result)
        else
          Run(trace, rest.result)
  }

  /** Literal lists of commands with one more in front. */
  lemma PrependTwo<T>(x: T, a: T, b: T)
    ensures [x] + [a, b] == [x, a, b]
  {
  }

  lemma PrependThree<T>(x: T, a: T, b: T, c: T)
    ensures [x] + [a, b, c] == [x, a, b, c]
  {
  }

  lemma PrependPair<T>(x: T, y: T, rest: seq<T>)
    ensures [x] + ([y] + rest) == [x, y] + rest
  {
  }

  /** A common front keeps one list a prefix of another. */
  lemma PrefixExtend<T>(front: seq<T>, a: seq<T>, b: seq<T>)
    requires a <= b
    ensures front + a <= front + b
  {
    assert (front + b)[..|front + a|] == front + a;
  }
}
