/** Utility.ApplyCommand and Utility.ApplyCommands of the unit tests: a rename
    is a whole-text string.Replace, a command list is a left fold. */
module Applier {
  import opened Outcomes
  import opened TextReplace
  import opened Merger

  /** Apply one command to the code. */
  function ApplyCommand(code: string, command: Command): (r: Result<string>)
    ensures r.Success? <==> command.Rename? && command.variable != ""
    ensures command.Other? ==> r == Failure(UnsupportedCommand)
    ensures command.Rename? && command.variable == "" ==> r == Failure(EmptyOldValue)
    ensures r.Success? ==> r.value == Join(Pieces(code, command.variable), command.newName)
    ensures r.Success? && !Occurs(code, command.variable) ==> r.value == code
    ensures r.Success? && command.variable == command.newName ==> r.value == code
  {
    match command
    case Rename(_, _, variable, newName) =>
      if variable == "" then
        Failure(EmptyOldValue)
      else
        assert !Occurs(code, variable) ==> ReplaceAll(code, variable, newName) == code by {
          if !Occurs(code, variable) { ReplaceAbsent(code, variable, newName); }
        }
        ReplaceSelf(code, variable);
        Success(ReplaceAll(code, variable, newName))
    case Other =>
      Failure(UnsupportedCommand)
  }

  /** Apply the commands in list order, each to the text the previous one
      produced (Aggregate); the first failing command aborts the whole run. */
  function ApplyCommands(code: string, commands: seq<Command>): (r: Result<string>)
    ensures commands == [] ==> r == Success(code)
    ensures |commands| == 1 ==> r == ApplyCommand(code, commands[0])
    decreases |commands|
  {
    if commands == [] then
      Success(code)
    else
      var next :- ApplyCommand(code, commands[0]);
      ApplyCommands(next, commands[1..])
  }

  /** Continue a fold result with further commands. */
  function Then(r: Result<string>, commands: seq<Command>): Result<string>
  {
    match r
    case Success(code) => ApplyCommands(code, commands)
    case Failure(e) => Failure(e)
  }

  /** Folding over a concatenation folds the second part over the result
      of the first. */
  lemma {:induction false} ApplyCommandsAppend(code: string, xs: seq<Command>, ys: seq<Command>)
    ensures ApplyCommands(code, xs + ys) == Then(ApplyCommands(code, xs), ys)
    decreases |xs|
  {
    if xs == [] {
      assert xs + ys == ys;
    } else {
      assert (xs + ys)[0] == xs[0];
      assert (xs + ys)[1..] == xs[1..] + ys;
      match ApplyCommand(code, xs[0])
      case Success(next) =>
        ApplyCommandsAppend(next, xs[1..], ys);
      case Failure(_) =>
    }
  }

  /** The left-fold law: applying xs + [x] applies x to the result for xs. */
  lemma ApplyCommandsSnoc(code: string, xs: seq<Command>, x: Command)
    ensures ApplyCommands(code, xs + [x]) ==
      match ApplyCommands(code, xs)
      case Success(c) => ApplyCommand(c, x)
      case Failure(e) => Failure(e)
  {
    ApplyCommandsAppend(code, xs, [x]);
    match ApplyCommands(code, xs)
    case Success(c) =>
      assert [x][1..] == [];
      assert ApplyCommands(c, [x]) == ApplyCommand(c, x);
    case Failure(_) =>
  }

  /** The fold succeeds only if every command is an applicable rename: there
      is no partial application. */
  lemma {:induction false} ApplyCommandsNeedsRenames(code: string, commands: seq<Command>)
    ensures ApplyCommands(code, commands).Success? ==>
      forall i :: 0 <= i < |commands| ==> commands[i].Rename? && commands[i].variable != ""
    decreases |commands|
  {
    if commands != [] {
      match ApplyCommand(code, commands[0])
      case Success(next) =>
        ApplyCommandsNeedsRenames(next, commands[1..]);
        assert forall i :: 1 <= i < |commands| ==> commands[i] == commands[1..][i - 1];
      case Failure(_) =>
    }
  }

  /** Apply after resolve, for a pair at one site: the merged text is the
      text with the one agreed rename applied. */
  lemma ResolvedSameSiteIsOneRename(code: string, ask: string -> Result<string>, left: Command, right: Command)
    requires SameSite(left, right)
    requires ResolveConflict(ask, left, right).Success?
    ensures var agreed :=
        if left.newName == right.newName then left.newName
        else ask(NameConflict(left.newName, right.newName)).value;
      ApplyCommands(code, ResolveConflict(ask, left, right).value) ==
        ApplyCommand(code, Rename(left.classFullName, left.methodName, left.variable, agreed))
  {
  }

  /** Apply after resolve, for a pair at different sites: both renames are
      applied, left first. */
  lemma ResolvedIndependentIsBoth(code: string, ask: string -> Result<string>, left: Command, right: Command)
    requires !SameSite(left, right)
    requires ResolveConflict(ask, left, right).Success?
    ensures ApplyCommands(code, ResolveConflict(ask, left, right).value) ==
      Then(ApplyCommand(code, left), [right])
  {
  }
}
