/** The scripted snapshot of the unit tests (RenameVariableTests.cs): a dialog
    that replays recorded exchanges in order, the fluent builder that records
    them, and the branch manager that merges one command per branch. */
module RenameVariableTests {
  import opened Outcomes
  import M = Merger
  import A = Applier

  /** A recorded exchange: the question expected and the answer given. */
  type Exchange = (string, string)

  /** What the script answers when asked `question` with `position`
      exchanges already consumed. */
  function ScriptReply(replics: seq<Exchange>, position: nat, question: string): Result<string>
  {
    if position < |replics| then
      if replics[position].0 == question then Success(replics[position].1) else Failure(QuestionMismatch)
    else
      Failure(ScriptExhausted)
  }

  /** The script at `position` seen as the resolver's oracle. */
  function ScriptOracle(replics: seq<Exchange>, position: nat): string -> Result<string>
  {
    q => ScriptReply(replics, position, q)
  }

  /** The scripted dialog: the recorded exchanges and how far its enumerator
      has moved. */
  class UserDialog {
    const replics: seq<Exchange>
    var position: nat

    ghost predicate Valid()
      reads this
    {
      position <= |replics|
    }

    constructor (replics: seq<Exchange>)
      ensures Valid() && this.replics == replics && position == 0
    {
      this.replics := replics;
      position := 0;
    }

    /** Move to the next exchange; answer it if its question is `question`. */
    method Ask(question: string) returns (answer: Result<string>)
      requires Valid()
      modifies this
      ensures Valid()
      ensures position == if old(position) < |replics| then old(position) + 1 else old(position)
      ensures answer == ScriptReply(replics, old(position), question)
      ensures answer.Success? <==> old(position) < |replics| && replics[old(position)].0 == question
      ensures answer.Success? ==> answer.value == replics[old(position)].1
      ensures old(position) == |replics| ==> answer == Failure(ScriptExhausted)
    {
      if position < |replics| {
        var replic := replics[position];
        position := position + 1;
        if replic.0 == question {
          answer := Success(replic.1);
        } else {
          answer := Failure(QuestionMismatch);
        }
      } else {
        answer := Failure(ScriptExhausted);
      }
    }

    /** Succeeds only when no exchange is left; like the enumerator's
        MoveNext, it steps past one exchange if there is one. */
    method Completed() returns (done: bool)
      requires Valid()
      modifies this
      ensures Valid()
      ensures done <==> old(position) == |replics|
      ensures position == if old(position) < |replics| then old(position) + 1 else old(position)
    {
      done := position == |replics|;
      if !done {
        position := position + 1;
      }
    }
  }

  /** The builder's state between answers: the exchanges recorded so far. */
  datatype UserQuestion = UserQuestion(result: seq<Exchange>) {
    /** Whatever the answer, the exchange it completes comes after the
        ones recorded so far. */
    function BeingAsked(question: string): (pending: UserAnswer)
      ensures forall answer :: pending.Answer(answer).result == result + [(question, answer)]
    {
      UserAnswer(question, result)
    }

    method NotAsked() returns (dialog: UserDialog)
      ensures fresh(dialog) && dialog.Valid()
      ensures dialog.replics == [] && dialog.position == 0
    {
      dialog := new UserDialog([]);
    }

    method Done() returns (dialog: UserDialog)
      ensures fresh(dialog) && dialog.Valid()
      ensures dialog.replics == result && dialog.position == 0
    {
      dialog := new UserDialog(result);
    }
  }

  /** The builder after a question, waiting for its answer. */
  datatype UserAnswer = UserAnswer(question: string, result: seq<Exchange>) {
    /** Record the exchange after every earlier one. */
    function Answer(answer: string): (next: UserQuestion)
      ensures |next.result| == |result| + 1
      ensures next.result[..|result|] == result
      ensures next.result[|result|] == (question, answer)
    {
      UserQuestion(result + [(question, answer)])
    }
  }

  /** The builder a test starts from (TestBase.User). */
  function User(): (blank: UserQuestion)
    ensures blank.result == []
  {
    UserQuestion([])
  }

  /** The chain User.BeingAsked(q1).Answer(a1) ... .BeingAsked(qn).Answer(an). */
  function Scripted(exchanges: seq<Exchange>): UserQuestion
    decreases |exchanges|
  {
    if exchanges == [] then
      User()
    else
      var last := exchanges[|exchanges| - 1];
      Scripted(exchanges[..|exchanges| - 1]).BeingAsked(last.0).Answer(last.1)
  }

  /** The builder records exactly the exchanges of the chain, in chain order. */
  lemma {:induction false} ScriptedRecordsInOrder(exchanges: seq<Exchange>)
    ensures Scripted(exchanges).result == exchanges
    decreases |exchanges|
  {
    if exchanges != [] {
      var n := |exchanges| - 1;
      ScriptedRecordsInOrder(exchanges[..n]);
      assert exchanges == exchanges[..n] + [exchanges[n]];
    }
  }

  /** ConflictResolver.ResolveConflict as the scripted snapshot calls it,
      with a dialog that changes as it is asked. It resolves as the resolver
      does with the script's current reply as oracle, and consumes exactly
      the questions the resolver asks. */
  method ResolveWithScript(dialog: UserDialog, left: M.Command, right: M.Command)
    returns (r: Result<seq<M.Command>>)
    requires dialog.Valid()
    modifies dialog
    ensures dialog.Valid()
    ensures r == M.ResolveConflict(ScriptOracle(dialog.replics, old(dialog.position)), left, right)
    ensures dialog.position == old(dialog.position) +
      (if M.AsksOracle(left, right) && old(dialog.position) < |dialog.replics| then 1 else 0)
    ensures r.Success? ==>
      && dialog.position == old(dialog.position) + |M.QuestionsAsked(left, right)|
      && forall i :: 0 <= i < |M.QuestionsAsked(left, right)| ==>
           dialog.replics[old(dialog.position) + i].0 == M.QuestionsAsked(left, right)[i]
  {
    if left.Rename? && right.Rename? {
      if M.SameSite(left, right) {
        if left.newName == right.newName {
          r := Success([left]);
        } else {
          var selectedName :- dialog.Ask(M.NameConflict(left.newName, right.newName));
          r := Success([M.Rename(left.classFullName, left.methodName, left.variable, selectedName)]);
        }
      } else {
        r := Success([left, right]);
      }
    } else {
      r := Failure(UnsupportedConflict);
    }
  }

  /** The two branches forked from one baseline, one command list each. */
  class BranchesManager {
    const code: string
    var leftCommands: seq<M.Command>
    var rightCommands: seq<M.Command>

    constructor (code: string)
      ensures this.code == code && leftCommands == [] && rightCommands == []
    {
      this.code := code;
      leftCommands := [];
      rightCommands := [];
    }

    method AddLeft(command: M.Command) returns (self: BranchesManager)
      modifies this
      ensures self == this
      ensures leftCommands == old(leftCommands) + [command]
      ensures rightCommands == old(rightCommands)
    {
      leftCommands := leftCommands + [command];
      self := this;
    }

    method AddRight(command: M.Command) returns (self: BranchesManager)
      modifies this
      ensures self == this
      ensures rightCommands == old(rightCommands) + [command]
      ensures leftCommands == old(leftCommands)
    {
      rightCommands := rightCommands + [command];
      self := this;
    }

    /** Take the single command of each branch, resolve them with the dialog,
        insist that the dialog has nothing left to say, and apply the
        resolved commands to the baseline in order. */
    method MergeBranches(dialog: UserDialog) returns (merged: Result<string>)
      requires dialog.Valid()
      modifies dialog
      ensures dialog.Valid()
      ensures |leftCommands| != 1 || |rightCommands| != 1 ==>
        merged == Failure(NotExactlyOne) && dialog.position == old(dialog.position)
      ensures |leftCommands| == 1 && |rightCommands| == 1 ==>
        var resolved := M.ResolveConflict(ScriptOracle(dialog.replics, old(dialog.position)),
                                          leftCommands[0], rightCommands[0]);
        var consumed := old(dialog.position) + |M.QuestionsAsked(leftCommands[0], rightCommands[0])|;
        merged ==
          if resolved.Failure? then Failure(resolved.error)
          else if consumed != |dialog.replics| then Failure(ScriptNotCompleted)
          else A.ApplyCommands(code, resolved.value)
      // where the dialog ends: past the resolver's questions, and past one
      // more exchange when the completion check finds one left
      ensures |leftCommands| == 1 && |rightCommands| == 1 ==>
        var resolved := M.ResolveConflict(ScriptOracle(dialog.replics, old(dialog.position)),
                                          leftCommands[0], rightCommands[0]);
        var asked := old(dialog.position) +
          (if M.AsksOracle(leftCommands[0], rightCommands[0]) && old(dialog.position) < |dialog.replics| then 1 else 0);
        dialog.position == if resolved.Failure? || asked == |dialog.replics| then asked else asked + 1
    {
      if |leftCommands| != 1 || |rightCommands| != 1 {
        return Failure(NotExactlyOne);
      }
      var leftCommand := leftCommands[0];
      var rightCommand := rightCommands[0];
      var commands :- ResolveWithScript(dialog, leftCommand, rightCommand);
      var done := dialog.Completed();
      if !done {
        return Failure(ScriptNotCompleted);
      }
      merged := A.ApplyCommands(code, commands);
    }
  }

  /** GeneralCases.RenameVariable_Confilct: both branches rename `variable`,
      to `variable1` and to `variable2`; the user, asked `message`, answers
      `variable3`. The test's message comes from a generator that is not part
      of this model: the merge goes through exactly when it is the resolver's
      NameConflict question. */
  method RenameVariableConflict(code: string, message: string) returns (merged: Result<string>)
    ensures message == M.NameConflict("variable1", "variable2") ==>
      merged == A.ApplyCommand(code, M.Rename("GeneralCase", "Method", "variable", "variable3"))
    ensures message != M.NameConflict("variable1", "variable2") ==>
      merged == Failure(QuestionMismatch)
  {
    var manager := new BranchesManager(code);
    manager := manager.AddLeft(M.Rename("GeneralCase", "Method", "variable", "variable1"));
    manager := manager.AddRight(M.Rename("GeneralCase", "Method", "variable", "variable2"));
    var dialog := User().BeingAsked(message).Answer("variable3").Done();
    merged := manager.MergeBranches(dialog);
    assert A.ApplyCommands(code, [M.Rename("GeneralCase", "Method", "variable", "variable3")]) ==
      A.ApplyCommand(code, M.Rename("GeneralCase", "Method", "variable", "variable3"));
  }

  /** GeneralCases.Rename2Variables_NoConfilct: two different variables; no
      question, and the merge applies both renames, left first. */
  method Rename2VariablesNoConflict(code: string) returns (merged: Result<string>)
    ensures merged == A.ApplyCommands(code, [M.Rename("GeneralCase", "Method", "variable", "variable1"),
                                             M.Rename("GeneralCase", "Method", "tail", "tail1")])
  {
    var manager := new BranchesManager(code);
    manager := manager.AddLeft(M.Rename("GeneralCase", "Method", "variable", "variable1"));
    manager := manager.AddRight(M.Rename("GeneralCase", "Method", "tail", "tail1"));
    var dialog := User().NotAsked();
    merged := manager.MergeBranches(dialog);
  }

  /** GeneralCases.Rename2Variables_Confilct: two variables renamed to the
      same name, with two recorded exchanges. The resolver keeps both renames
      without asking, so the dialog is left with both exchanges and the merge
      fails, whatever the two questions are. */
  method Rename2VariablesConflict(code: string, message1: string, message2: string)
    returns (merged: Result<string>)
    ensures merged == Failure(ScriptNotCompleted)
  {
    var manager := new BranchesManager(code);
    manager := manager.AddLeft(M.Rename("GeneralCase", "Method", "variable", "variable1"));
    manager := manager.AddRight(M.Rename("GeneralCase", "Method", "tail", "variable1"));
    var dialog := User().BeingAsked(message1).Answer("variable1")
                        .BeingAsked(message2).Answer("tail2").Done();
    merged := manager.MergeBranches(dialog);
  }
}
