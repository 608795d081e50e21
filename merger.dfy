/** The merge core of Merger/Merger/Program.cs: refactoring commands, the
    question text, the single-exchange dialog and the conflict resolver. */
module Merger {
  import opened Outcomes

  /** A refactoring command. `Rename` is RenameCommand; `Other` stands for
      any other Command the resolver and the applier may be handed. */
  datatype Command =
    | Rename(classFullName: string, methodName: string, variable: string, newName: string)
    | Other

  /** Two renames target the same site: same class, method and variable. */
  predicate SameSite(a: Command, b: Command)
  {
    && a.Rename? && b.Rename?
    && a.classFullName == b.classFullName
    && a.methodName == b.methodName
    && a.variable == b.variable
  }

  /** The question put to the user when both branches renamed one variable
      to different names: the two names around " <-> ". */
  function NameConflict(leftName: string, rightName: string): (q: string)
    ensures |q| == |leftName| + 5 + |rightName|
    ensures q[..|leftName|] == leftName
    ensures q[|leftName|..|leftName| + 5] == " <-> "
    ensures q[|leftName| + 5..] == rightName
  {
    leftName + " <-> " + rightName
  }

  /** As long as the left names hold no space, the question tells which two
      names are in conflict. */
  lemma NameConflictInjective(l1: string, r1: string, l2: string, r2: string)
    requires ' ' !in l1 && ' ' !in l2
    requires NameConflict(l1, r1) == NameConflict(l2, r2)
    ensures l1 == l2 && r1 == r2
  {
    var q := NameConflict(l1, r1);
    // both left names end where the first space of the question is
    assert q[|l1|] == ' ' && q[|l2|] == ' ';
    assert forall i :: 0 <= i < |l1| ==> q[i] == l1[i] != ' ';
    assert forall i :: 0 <= i < |l2| ==> q[i] == l2[i] != ' ';
    assert |l1| == |l2|;
    assert l1 == q[..|l1|] == l2;
    assert r1 == q[|l1| + 5..] == r2;
  }

  /** The single-exchange dialog of Program.cs: it knows one question and
      its answer, and any other question is an error. It holds no state. */
  datatype UserDialog = UserDialog(question: string, answer: string) {
    function Ask(q: string): (r: Result<string>)
      ensures r.Success? <==> q == question
      ensures r.Success? ==> r.value == answer
      ensures r.Failure? ==> r.error == QuestionMismatch
    {
      if question == q then Success(answer) else Failure(QuestionMismatch)
    }
  }

  /** The pair needs the user: same site, different new names. */
  predicate AsksOracle(left: Command, right: Command)
  {
    SameSite(left, right) && left.newName != right.newName
  }

  /** The questions the resolver puts to its dialog for this pair, in order. */
  function QuestionsAsked(left: Command, right: Command): (qs: seq<string>)
    ensures |qs| <= 1
    ensures |qs| == 1 <==> AsksOracle(left, right)
  {
    if AsksOracle(left, right) then [NameConflict(left.newName, right.newName)] else []
  }

  /** ConflictResolver.ResolveConflict. The dialog enters as its `ask`
      function: a question in, an answer or an error out. */
  function ResolveConflict(ask: string -> Result<string>, left: Command, right: Command): (r: Result<seq<Command>>)
    // Only rename pairs are resolved; the error of a failed question is passed on.
    ensures !(left.Rename? && right.Rename?) ==> r == Failure(UnsupportedConflict)
    ensures r.Success? <==>
      left.Rename? && right.Rename? &&
      (AsksOracle(left, right) ==> ask(NameConflict(left.newName, right.newName)).Success?)
    ensures r.Failure? && left.Rename? && right.Rename? ==>
      r.error == ask(NameConflict(left.newName, right.newName)).error
    // One or two commands come out.
    ensures r.Success? ==> 1 <= |r.value| <= 2
    // Different sites: both commands, unchanged, left first.
    ensures r.Success? && !SameSite(left, right) ==> r.value == [left, right]
    // Same site: one rename of that site, to the agreed name or to the answer.
    ensures r.Success? && SameSite(left, right) ==>
      |r.value| == 1 && SameSite(r.value[0], left) && SameSite(r.value[0], right)
    ensures r.Success? && SameSite(left, right) && left.newName == right.newName ==>
      r.value == [left]
    ensures r.Success? && AsksOracle(left, right) ==>
      r.value[0].newName == ask(NameConflict(left.newName, right.newName)).value
  {
    if left.Rename? && right.Rename? then
      if SameSite(left, right) then
        if left.newName == right.newName then
          Success([left])
        else
          var selectedName :- ask(NameConflict(left.newName, right.newName));
          Success([Rename(left.classFullName, left.methodName, left.variable, selectedName)])
      else
        Success([left, right])
    else
      Failure(UnsupportedConflict)
  }

  /** The resolver consults its dialog on QuestionsAsked only: two dialogs
      that agree there give the same resolution. */
  lemma ResolveConsultsOnlyItsQuestions(ask1: string -> Result<string>, ask2: string -> Result<string>,
                                        left: Command, right: Command)
    requires forall i :: 0 <= i < |QuestionsAsked(left, right)| ==>
      ask1(QuestionsAsked(left, right)[i]) == ask2(QuestionsAsked(left, right)[i])
    ensures ResolveConflict(ask1, left, right) == ResolveConflict(ask2, left, right)
  {
    if AsksOracle(left, right) {
      assert QuestionsAsked(left, right)[0] == NameConflict(left.newName, right.newName);
    }
  }

  /** With Program.cs's single-exchange dialog: a conflicting pair resolves
      exactly when the dialog expects the conflict question, and then to the
      dialog's answer; every other rename pair resolves whatever the dialog. */
  lemma ResolveWithUserDialog(d: UserDialog, left: Command, right: Command)
    requires left.Rename? && right.Rename?
    ensures var r := ResolveConflict(q => d.Ask(q), left, right);
      && (r.Success? <==> (AsksOracle(left, right) ==> d.question == NameConflict(left.newName, right.newName)))
      && (r.Success? && AsksOracle(left, right) ==>
            r.value == [Rename(left.classFullName, left.methodName, left.variable, d.answer)])
      && (r.Failure? ==> r.error == QuestionMismatch)
  {
  }
}
