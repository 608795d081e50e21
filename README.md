# Merger: three-way merge of rename refactorings

Merger combines two branches that each carry one refactoring command made
against a shared baseline text. A command here is a variable rename: it names
a class, a method, a variable and the variable's new name. The resolver looks
at the left and the right command:

- the same site (class, method and variable) and the same new name: the two
  collapse into one command;
- the same site and different new names: the user is asked one question,
  "`left new name` <-> `right new name`", and the answer becomes the new name;
- any other pair of renames: both are kept, left first;
- anything that is not a pair of renames is an error.

The resolved commands are then applied to the baseline as a left fold. Each
rename is a whole-text, ordinal, left-to-right, non-overlapping substring
replacement.

The repository holds the resolver (`Merger/Merger/Program.cs`) and two
alternative snapshots of its unit tests. Both snapshots declare the same class
names, and the text applier and the merge pipeline live in these tests:

- `Merger.UnitTests/UnitTest1.cs` gives the resolver Program.cs's
  single-exchange dialog.
- `Merger.UnitTests/RenameVariableTests.cs` gives it a scripted dialog. The
  script replays recorded (question, answer) exchanges in order and checks at
  the end that every exchange was consumed.

Modules:

- `Outcomes`: the `Result` type and the failures. The source throws an
  exception or fails a test assertion; here each failure is a value.
- `TextReplace`: `string.Replace` as `ReplaceAll`, with a split-and-join
  reference view (`Pieces`, `Join`) and the lemmas that connect them.
- `Merger`: `Program.cs`. It holds the commands, the question text
  (`NameConflict`), the single-exchange `UserDialog` and `ResolveConflict`.
  The resolver takes its dialog as an `ask` function, so the questions it puts
  (`QuestionsAsked`) can be stated and any dialog can be plugged in.
- `Applier`: `Utility.ApplyCommand` and `Utility.ApplyCommands`.
  `ApplyCommand` reads the same in both snapshots. Only
  `RenameVariableTests.cs` declares `ApplyCommands`; `UnitTest1.cs` has none
  and writes the same `Aggregate` fold inline in its `MergeBranches`.
- `RenameVariableTests`: the scripted dialog as a class whose position
  advances, and the fluent builder. It also holds the resolver as this snapshot
  calls it with the stateful dialog (`ResolveWithScript`), the
  `BranchesManager` class and the three test scenarios.
- `UnitTest1`: the single-exchange builder, its `BranchesManager` class and
  its test scenarios.

The model follows the resolver as written, also where the expectations of
the tests go further:

- The resolver compares class, method and variable together. It has no
  "different variable, same new name" rule that asks twice, and it has no
  method-moving commands.
- `RenameVariableTests.cs:228-253` expects two questions for two variables
  renamed to the same name. The resolver as written keeps both renames
  without asking. The script then still holds both exchanges, so the merge
  fails with `ScriptNotCompleted` (`RenameVariableTests.Rename2VariablesConflict`).
- The questions in `RenameVariableTests.cs` come from two message generators
  that are not part of this model. They enter the scenarios as parameters.
  `RenameVariableTests.RenameVariableConflict` shows that the merge goes
  through exactly when the generated message equals `NameConflict`.

## Model

| member | source | states |
|---|---|---|
| `Merger.NameConflict` | Merger/Merger/Program.cs:11-14 | the question is the left name, then " <-> ", then the right name, at those exact positions and with that length |
| `Merger.NameConflictInjective` | Merger/Merger/Program.cs:11-14 | if neither left name contains a space, equal questions mean equal name pairs, so the question identifies the conflict |
| `Merger.UserDialog.Ask` | Merger/Merger/Program.cs:28-33 | succeeds exactly on the stored question and then returns the stored answer; any other question fails; the dialog has no state to change |
| `Merger.QuestionsAsked` | Merger/Merger/Program.cs:66-79 | the resolver asks at most one question, and asks one exactly when both renames target the same site with different new names |
| `Merger.ResolveConflict` | Merger/Merger/Program.cs:57-89 | a non-rename input fails with UnsupportedConflict; success exactly for rename pairs whose question, if any, is answered; the error of an unanswered question is passed on; 1 or 2 commands; different sites give [left, right] unchanged; the same site gives one rename of that site, equal to left when the new names agree and carrying the oracle's answer otherwise |
| `Merger.ResolveConsultsOnlyItsQuestions` | Merger/Merger/Program.cs:59-88 | two dialogs that agree on QuestionsAsked give the same resolution: the oracle is consulted on nothing else, and not at all for identical or independent renames |
| `Merger.ResolveWithUserDialog` | Merger/Merger/Program.cs:74-79 | with the single-exchange dialog, a conflicting pair resolves exactly when the dialog's question is NameConflict(left, right), and then to the rename carrying the dialog's answer; failures are QuestionMismatch |
| `TextReplace.Pieces` | Merger/Merger.UnitTests/RenameVariableTests.cs:48 | the scan splits the text into at least one piece, and the first piece is a prefix of the text |
| `TextReplace.ReplaceAll` | Merger/Merger.UnitTests/RenameVariableTests.cs:48 | the replacement equals the pieces of the text, split at the leftmost non-overlapping occurrences, joined with the new name; `PiecesAvoidPattern`, `PiecesLeftmost` and `JoinPiecesRestores` say what that split is, so every scanned occurrence is replaced and nothing else changes |
| `TextReplace.JoinPiecesRestores` | Merger/Merger.UnitTests/RenameVariableTests.cs:48 | joining the pieces with the old name gives the original text back |
| `TextReplace.PiecesAvoidPattern` | Merger/Merger.UnitTests/RenameVariableTests.cs:48 | no piece contains the old name: no occurrence is left behind by the left-to-right scan |
| `TextReplace.PiecesLeftmost` | Merger/Merger.UnitTests/RenameVariableTests.cs:48 | the scan takes the leftmost occurrence: in every piece but the last, followed by the replaced occurrence, no earlier occurrence of the old name starts |
| `TextReplace.ReplaceAbsent` | Merger/Merger.UnitTests/RenameVariableTests.cs:48 | text with no occurrence of the old name is returned unchanged |
| `TextReplace.ReplaceSelf` | Merger/Merger.UnitTests/RenameVariableTests.cs:48 | renaming a name to itself leaves the text unchanged |
| `TextReplace.ReplaceLength` | Merger/Merger.UnitTests/RenameVariableTests.cs:48 | each replaced occurrence changes the length by the difference of the two names' lengths |
| `Applier.ApplyCommand` | Merger/Merger.UnitTests/RenameVariableTests.cs:42-52 | succeeds exactly on a rename with a non-empty variable, and then the result is the code split at the variable and joined with the new name; a non-rename fails with UnsupportedCommand and an empty variable with EmptyOldValue; text without the variable, or a rename to the same name, is returned unchanged |
| `Applier.ApplyCommands` | Merger/Merger.UnitTests/RenameVariableTests.cs:37-40 | the `Aggregate` fold: no commands leave the code as it is and one command is `ApplyCommand`; `ApplyCommandsAppend`, `ApplyCommandsSnoc` and `ApplyCommandsNeedsRenames` give the rest of its meaning |
| `Applier.ApplyCommandsAppend` | Merger/Merger.UnitTests/RenameVariableTests.cs:37-40 | applying xs + ys is applying ys to the result of applying xs, with a failure passed on |
| `Applier.ApplyCommandsSnoc` | Merger/Merger.UnitTests/RenameVariableTests.cs:37-40 | the left-fold law: applying xs + [x] applies x to the result of applying xs |
| `Applier.ApplyCommandsNeedsRenames` | Merger/Merger.UnitTests/RenameVariableTests.cs:37-52 | the fold succeeds only if every command is a rename with a non-empty variable: there is no partial application |
| `Applier.ResolvedSameSiteIsOneRename` | Merger/Merger/Program.cs:66-79 | for two renames of one site, applying the resolution equals applying the single rename to the agreed or answered name |
| `Applier.ResolvedIndependentIsBoth` | Merger/Merger/Program.cs:81-84 | for renames of different sites, applying the resolution applies the left rename and then the right one |
| `RenameVariableTests.UserDialog.constructor` | Merger/Merger.UnitTests/RenameVariableTests.cs:14-18 | a new dialog holds the given exchanges and has consumed none |
| `RenameVariableTests.UserDialog.Ask` | Merger/Merger.UnitTests/RenameVariableTests.cs:20-27 | consumes one exchange if one is left; answers it exactly when its question is the one asked; an exhausted script fails with ScriptExhausted and does not move |
| `RenameVariableTests.UserDialog.Completed` | Merger/Merger.UnitTests/RenameVariableTests.cs:29-32 | succeeds exactly when every exchange has been consumed, and steps past one exchange otherwise |
| `RenameVariableTests.UserQuestion.NotAsked` | Merger/Merger.UnitTests/RenameVariableTests.cs:66 | a fresh dialog with no exchanges |
| `RenameVariableTests.UserQuestion.Done` | Merger/Merger.UnitTests/RenameVariableTests.cs:73-76 | a fresh dialog with the recorded exchanges, none consumed |
| `RenameVariableTests.UserAnswer.Answer` | Merger/Merger.UnitTests/RenameVariableTests.cs:91-96 | appends (question, answer) after every earlier exchange, keeping their order |
| `RenameVariableTests.User` | Merger/Merger.UnitTests/RenameVariableTests.cs:175 | the builder starts with no exchanges recorded |
| `RenameVariableTests.UserQuestion.BeingAsked` | Merger/Merger.UnitTests/RenameVariableTests.cs:68-71 | whatever answer follows, the exchange is recorded after the ones already collected |
| `RenameVariableTests.ScriptedRecordsInOrder` | Merger/Merger.UnitTests/RenameVariableTests.cs:57-96 | a chain of BeingAsked/Answer calls from the empty builder records exactly its exchanges, in chain order |
| `RenameVariableTests.ResolveWithScript` | Merger/Merger.UnitTests/RenameVariableTests.cs:154 | with the scripted dialog, the resolution is Merger.ResolveConflict with the script's next reply as oracle; the dialog moves one exchange exactly when the pair conflicts and an exchange is left, and otherwise stays; on success the consumed exchanges are exactly QuestionsAsked, in order |
| `RenameVariableTests.BranchesManager.constructor` | Merger/Merger.UnitTests/RenameVariableTests.cs:132-135 | the baseline is kept and both branches start empty |
| `RenameVariableTests.BranchesManager.AddLeft` | Merger/Merger.UnitTests/RenameVariableTests.cs:137-141 | appends to the left branch only and returns the same manager |
| `RenameVariableTests.BranchesManager.AddRight` | Merger/Merger.UnitTests/RenameVariableTests.cs:143-147 | appends to the right branch only and returns the same manager |
| `RenameVariableTests.BranchesManager.MergeBranches` | Merger/Merger.UnitTests/RenameVariableTests.cs:149-160 | fails with NotExactlyOne unless each branch holds one command; then fails as the resolution does, or with ScriptNotCompleted unless the resolver's questions use up the script, or else returns the resolved commands folded over the baseline, which is left unchanged; the dialog ends past the resolver's questions, and one exchange further when the completion check finds one left |
| `RenameVariableTests.RenameVariableConflict` | Merger/Merger.UnitTests/RenameVariableTests.cs:184-202 | the conflicting renames merge to the `variable3` rename exactly when the recorded question is NameConflict("variable1", "variable2"); otherwise the merge fails with QuestionMismatch |
| `RenameVariableTests.Rename2VariablesNoConflict` | Merger/Merger.UnitTests/RenameVariableTests.cs:204-225 | with no exchanges recorded, renames of two variables merge to both renames applied in order |
| `RenameVariableTests.Rename2VariablesConflict` | Merger/Merger.UnitTests/RenameVariableTests.cs:227-253 | as written, the resolver asks nothing for two variables renamed to one name, so the merge fails with ScriptNotCompleted whatever the recorded questions |
| `UnitTest1.UserQuestion.BeingAsked` | Merger/Merger.UnitTests/UnitTest1.cs:28-31 | whatever answer follows, the dialog built from it answers this question with that answer |
| `UnitTest1.UserAnswer.Answer` | Merger/Merger.UnitTests/UnitTest1.cs:34-43 | the dialog answers the builder's question with the given answer and fails on every other question |
| `UnitTest1.BranchesManager.constructor` | Merger/Merger.UnitTests/UnitTest1.cs:78-81 | the baseline is kept and both branches start empty |
| `UnitTest1.BranchesManager.AddLeft` | Merger/Merger.UnitTests/UnitTest1.cs:83-87 | appends to the left branch only and returns the same manager |
| `UnitTest1.BranchesManager.AddRight` | Merger/Merger.UnitTests/UnitTest1.cs:89-93 | appends to the right branch only and returns the same manager |
| `UnitTest1.BranchesManager.MergeBranches` | Merger/Merger.UnitTests/UnitTest1.cs:95-105 | fails with NotExactlyOne unless each branch holds one command; otherwise fails as the resolution does or folds the resolved commands over the baseline in list order |
| `UnitTest1.RenameVariableConflict` | Merger/Merger.UnitTests/UnitTest1.cs:128-143 | when the user answers "variable3" to the conflict question, the merged text equals the `variable` to `variable3` rename alone, for every baseline |
| `UnitTest1.Rename2VariablesNoConflict` | Merger/Merger.UnitTests/UnitTest1.cs:145-157 | renames of two variables merge to both renames applied in order, for every baseline |
| `UnitTest1.NoConflictExpectationDiffers` | Merger/Merger.UnitTests/UnitTest1.cs:159 | on the baseline "tail" the merge gives "tail1", while the test's expected value gives "tail" |

## Findings

| source | as written | input that shows it | evidently intended | confidence | as-written member | corrected member |
|---|---|---|---|---|---|---|
| Merger/Merger.UnitTests/UnitTest1.cs:159 | the test of two independent renames expects the merge to equal the `variable` to `variable3` rename alone | baseline "tail": the merge gives "tail1", the expectation "tail" | the merge equals both renames applied in order, as the other snapshot asserts (RenameVariableTests.cs:218-224) | not executed | `UnitTest1.NoConflictExpectationDiffers` | `UnitTest1.Rename2VariablesNoConflict` |

## Left out

- Method-moving commands and the rule for two variables renamed to one name: neither exists in the code.
- `ITalkWithUser`, `MessagesGenerator.VariableHasBeenRenamedDifferently` and `MessagesGenerator.VariablesHaveBeenRenamedWithConflict` are not part of this model. Their questions enter the scenarios as string parameters.
- `Library.GetCode` reads the baseline from disk. The scenarios take the baseline as an arbitrary string.
- `CodeManager`, `ForkBranches`, `TestBase` and the `Commands` factory are thin wrappers. The merge returns the merged string, not a `CodeManager`.
- `Program.Main` is empty.
- MSTest's `[TestClass]` and `Assert.*` are not modelled as a framework. A failing assertion becomes a failure value, and a test's expected value becomes an `ensures` clause.
- Null strings are not modelled, because Dafny strings cannot be null. The .NET exception types all collapse into `Outcomes.Error` values.
- Dafny's `char` is a Unicode scalar value, while a .NET string is a sequence of UTF-16 code units. Matching agrees on well-formed text, but a character outside the Basic Multilingual Plane has length 1 here and 2 in .NET. This affects the length clauses of `Merger.NameConflict` and `TextReplace.ReplaceLength`. Lone surrogates cannot be represented.
- `RenameVariableTests.UserDialog.Ask`: past the end of the script, `Current` is not defined by .NET. The enumerator of a `List<T>` script (`NotAsked` and an empty `User...Done`, Merger/Merger.UnitTests/RenameVariableTests.cs:66 and 175) gives the default pair, and the `Concat` enumerator of a longer script (Merger/Merger.UnitTests/RenameVariableTests.cs:95) may repeat the last exchange. The model fails with `ScriptExhausted` in every case. The tests never reach this case, but `MergeBranches` and `ResolveWithScript` accept a dialog that is already at the end.
- `RenameVariableTests.UserDialog.Ask`: on a question mismatch, the model still moves the position, as the enumerator does. The merge stops at that failure in both cases.
