/** The single-exchange snapshot of the unit tests (UnitTest1.cs): the builder
    yields Program.cs's two-field dialog, and the branch manager folds the
    resolved commands over the baseline. */
module UnitTest1 {
  import opened Outcomes
  import M = Merger
  import A = Applier
  import TextReplace

  /** The builder a test starts from (TestBase.User). */
  datatype UserQuestion = UserQuestion {
    /** Whatever the answer, the dialog it builds answers this question. */
    function BeingAsked(question: string): (pending: UserAnswer)
      ensures forall answer :: pending.Answer(answer).Ask(question) == Success(answer)
    {
      UserAnswer(question)
    }
  }

  datatype UserAnswer = UserAnswer(question: string) {
    /** The dialog that answers `answer` to the question asked, and fails
        on every other question. */
    function Answer(answer: string): (dialog: M.UserDialog)
      ensures dialog.Ask(question) == Success(answer)
      ensures forall q :: q != question ==> dialog.Ask(q) == Failure(QuestionMismatch)
    {
      M.UserDialog(question, answer)
    }
  }

  /** The two branches forked from one baseline, one command list each. */
  class BranchesManager {
    const code: string
    var leftCommands: seq<M.Command>
    var rightCommands: seq<M.Command>

    constructor (code: string)
      ensures this.code == code && leftCommands == [] && rightCommands == []
    {
      this.code := code;
      leftCommands := [];
      rightCommands := [];
    }

    method AddLeft(command: M.Command) returns (self: BranchesManager)
      modifies this
      ensures self == this
      ensures leftCommands == old(leftCommands) + [command]
      ensures rightCommands == old(rightCommands)
    {
      leftCommands := leftCommands + [command];
      self := this;
    }

    method AddRight(command: M.Command) returns (self: BranchesManager)
      modifies this
      ensures self == this
      ensures rightCommands == old(rightCommands) + [command]
      ensures leftCommands == old(leftCommands)
    {
      rightCommands := rightCommands + [command];
      self := this;
    }

    /** Take the single command of each branch, resolve them with the
        dialog and fold the resolved commands over the baseline. */
    method MergeBranches(dialog: M.UserDialog) returns (merged: Result<string>)
      ensures |leftCommands| != 1 || |rightCommands| != 1 ==> merged == Failure(NotExactlyOne)
      ensures |leftCommands| == 1 && |rightCommands| == 1 ==>
        var resolved := M.ResolveConflict(q => dialog.Ask(q), leftCommands[0], rightCommands[0]);
        merged == if resolved.Failure? then Failure(resolved.error) else A.ApplyCommands(code, resolved.value)
    {
      if |leftCommands| != 1 || |rightCommands| != 1 {
        return Failure(NotExactlyOne);
      }
      var leftCommand := leftCommands[0];
      var rightCommand := rightCommands[0];
      var commands :- M.ResolveConflict(q => dialog.Ask(q), leftCommand, rightCommand);
      merged := A.ApplyCommands(code, commands);
    }
  }

  function ConflictQuestion(): string
  {
    M.NameConflict("variable1", "variable2")
  }

  /** GeneralCases.RenameVariable_Confilct: both branches rename `variable`,
      to `variable1` and to `variable2`; the user answers `variable3` to the
      conflict question, and the merge is the `variable3` rename alone. */
  method RenameVariableConflict(code: string) returns (merged: Result<string>)
    ensures merged == A.ApplyCommand(code, M.Rename("GeneralCase", "Method", "variable", "variable3"))
  {
    var manager := new BranchesManager(code);
    manager := manager.AddLeft(M.Rename("GeneralCase", "Method", "variable", "variable1"));
    manager := manager.AddRight(M.Rename("GeneralCase", "Method", "variable", "variable2"));
    merged := manager.MergeBranches(UserQuestion().BeingAsked(ConflictQuestion()).Answer("variable3"));
    assert A.ApplyCommands(code, [M.Rename("GeneralCase", "Method", "variable", "variable3")]) ==
      A.ApplyCommand(code, M.Rename("GeneralCase", "Method", "variable", "variable3"));
  }

  /** The commands GeneralCases.Rename2Variables_NoConfilct puts on the two
      branches: two different variables of one method. */
  function NoConflictCommands(): seq<M.Command>
  {
    [M.Rename("GeneralCase", "Method", "variable", "variable1"),
     M.Rename("GeneralCase", "Method", "tail", "tail1")]
  }

  /** GeneralCases.Rename2Variables_NoConfilct as the merge runs it: the
      dialog is never asked and both renames are applied, left first. */
  method Rename2VariablesNoConflict(code: string) returns (merged: Result<string>)
    ensures merged == A.ApplyCommands(code, NoConflictCommands())
  {
    var manager := new BranchesManager(code);
    manager := manager.AddLeft(NoConflictCommands()[0]);
    manager := manager.AddRight(NoConflictCommands()[1]);
    merged := manager.MergeBranches(UserQuestion().BeingAsked(ConflictQuestion()).Answer("variable3"));
  }

  /** The test expects the `variable3` rename alone; on the baseline "tail"
      the merge gives "tail1" where that expectation gives "tail". */
  lemma NoConflictExpectationDiffers()
    ensures A.ApplyCommands("tail", NoConflictCommands()) == Success("tail1")
    ensures A.ApplyCommand("tail", M.Rename("GeneralCase", "Method", "variable", "variable3")) == Success("tail")
  {
    var cmds := NoConflictCommands();
    assert A.ApplyCommand("tail", cmds[0]) == Success("tail");
    assert "tail"[..4] == "tail" && "tail"[4..] == "";
    assert TextReplace.ReplaceAll("", "tail", "tail1") == "";
    assert TextReplace.ReplaceAll("tail", "tail", "tail1") == "tail1" + TextReplace.ReplaceAll("", "tail", "tail1");
    assert "tail1" + "" == "tail1";
    assert TextReplace.ReplaceAll("tail", "tail", "tail1") == "tail1";
    assert cmds[1] == M.Rename("GeneralCase", "Method", "tail", "tail1");
    assert A.ApplyCommand("tail", cmds[1]) == Success("tail1");
    assert cmds[1..][1..] == [];
  }
}
