# grit: the commit view and the application loop, in Dafny

grit is a terminal git history browser. It keeps a stack of views, with
the log view at the bottom. A commit view is meant to be pushed on top of
it, but in this code `run` pushes only the log state and ignores every
result other than `Keep` and `PopState`. This project models two parts of
the program.

- **The commit view** (`src/commit_state.rs`). git prints the patch of a
  commit against its first parent as a sequence of raw lines, each tagged
  with an origin character. The view turns them into typed display lines:
  - a file header (`'F'`) is cut at every line break into several
    file-header lines;
  - a hunk header (`'H'`) is kept as it is;
  - every other line becomes `"<origin> <content>"`, an insertion for
    `'+'`, a deletion for `'-'` and a context line otherwise.

  The view also keeps the diff statistics. It answers the `q` key by
  asking to be popped and ignores every other event.
- **The application** (`src/app.rs`). `App` is a stack of view states
  with push, pop (which reports whether the stack is now empty), and
  access to the current state. `run` pushes the initial state and
  displays it. It then receives events one at a time and dispatches each
  handled event's `CommandResult`: `PopState` pops the stack, anything
  else changes nothing. Unless that step quit, it redisplays the current
  state. The loop ends when the stack has been emptied or the event
  source closes.

Modules:
- `Wrappers`: the `Result` type.
- `Keys`: key events and the `Q` constant of `src/keys.rs`.
- `State`: the `CommandResult` of a view's event handler.
- `Git`: the repository's answers, each a value: commit info, the raw
  patch lines, the diff statistics and lookup errors.
- `Commit`: `src/commit_state.rs`.
- `Application`: `src/app.rs`.

Two behaviours of the code are worth stating plainly:
- `CommitState::new` fails for a commit without a parent, because
  `parent(0)?` fails; it does not produce an empty diff.
- Only a plain `q` closes the commit view; `handle_event` does not match
  `Esc`.

## Model

| member | source | states |
|---|---|---|
| Commit.Split | src/commit_state.rs:52-53 | `str::split` on a character always yields at least one piece |
| Commit.SplitPieces | src/commit_state.rs:52-55 | splitting a header on '\n' yields one piece more than it has line breaks, and no piece contains a line break |
| Commit.JoinSplit | src/commit_state.rs:52-55 | the pieces of a split, joined back with '\n', give the original header text: nothing is lost or reordered |
| Commit.SplitJoin | src/commit_state.rs:52-55 | splitting the join of break-free pieces gives back exactly those pieces |
| Commit.KindOf | src/commit_state.rs:63-67 | the kind is Insertion if and only if the origin is '+', Deletion if and only if it is '-', and Context for every other origin |
| Commit.ClassifyOneShape | src/commit_state.rs:48-69 | an 'F' line with k line breaks gives k + 1 break-free file-header lines that join back to its content; an 'H' line gives one hunk-header line with its content unchanged; any other origin gives one line "origin, space, content" whose kind follows the origin |
| Commit.FileHeaderLines | src/commit_state.rs:50-56 | a file header made of several break-free lines joined by '\n' is cut back into exactly those lines, each a file header |
| Commit.ExampleBodyLines | src/commit_state.rs:57-68 | worked examples: a hunk header stays as it is; "+ new", "- old" and "  same" are an insertion, a deletion and a context line |
| Commit.ClassifyConcat | src/commit_state.rs:48-71 | the lines of a patch are the lines of its first part followed by those of its second part; appending in the callback never reorders |
| Commit.ClassifyAt | src/commit_state.rs:56-68 | the lines of the i-th raw line sit, unchanged, right after the lines of all earlier raw lines |
| Commit.OneLineCounts | src/commit_state.rs:50-68 | per raw line, how many lines of each kind it produces |
| Commit.KindCounts | src/commit_state.rs:47-71 | over a whole patch: the insertions are the '+' lines, the deletions the '-' lines, the hunk headers the 'H' lines; file-header lines come only from 'F' lines, at least one each; context lines are all the rest |
| Commit.BuildDiffLines | src/commit_state.rs:47-71 | the callback's accumulation, one raw line at a time, yields the classification of the whole patch |
| Commit.CommitState.HandleEvent | src/commit_state.rs:84-89 | the result is PopState if and only if the event is the plain `q` key with no modifier; otherwise it is Keep |
| Commit.New | src/commit_state.rs:37-80 | a commit without a parent fails; a failed diff lookup fails with its error; otherwise the view holds the commit, the three statistics, and the classified patch lines |
| Application.Popped | src/app.rs:28-32 | `Vec::pop` removes the top and keeps the rest; an empty stack stays empty |
| Application.Step | src/app.rs:61-65 | only PopState changes the stack: it pops, and quits exactly when it pops the last state |
| Application.Continue | src/app.rs:59-76 | one turn of the loop keeps a live run's stack non-empty |
| Application.Drive | src/app.rs:59-76 | a live run has handled every result with a non-empty stack; a run that quit has an empty stack and handled at least one result; one display follows every handled result except the quitting one |
| Application.DriveQuitFinal | src/app.rs:71-75 | once the loop has quit, later results change nothing |
| Application.DriveStack | src/app.rs:59-76 | the stack only ever loses its top, once per handled PopState; the loop quits exactly when those pops have emptied it, and then on a PopState |
| Application.DriveDisplays | src/app.rs:71-73 | every display after an event shows the top of the stack at that point: the state under the ones popped so far |
| Application.DriveQuits | src/app.rs:59-76 | the loop quits if and only if the results hold at least as many pops as the stack has states |
| Application.App.constructor | src/app.rs:20-22 | a new application has no state |
| Application.App.Push | src/app.rs:24-26 | the pushed state becomes the top, the states below are unchanged |
| Application.App.Pop | src/app.rs:28-32 | the stack is the popped stack, and the answer is true exactly when it is now empty |
| Application.App.State | src/app.rs:34-37 | the current state is the one on top, the one the next pop removes |
| Application.App.StateMut | src/app.rs:39-42 | the mutable reference designates the last slot of the stack, the one holding the current state |
| Application.App.Dispatch | src/app.rs:61-65 | the new stack and the quit flag are those of one step on the old stack |
| Application.App.Run | src/app.rs:44-79 | after pushing the initial state and displaying it, the stack, the displays, the number of handled events and the quit flag are those of the run loop over the received results |
| Application.Session | src/app.rs:20-79 | a new application run over the results quits if and only if at least one PopState is handled; if it does not quit, it handles every result and displays once per result plus the initial display |
| Application.PopLifecycle | src/app.rs:28-32 | popping a two-state stack reports "not empty" and leaves the bottom state; popping again reports "empty" |

## Left out

- The git2 calls of `CommitState::new` (find the commit, its tree, its first parent's tree, the diff and its statistics) are collapsed into two parameters: the parent count and one `Result` for the diff. The order in which the individual lookups can fail is not modelled.
- The lossy UTF-8 decoding of each raw line's content: contents are character strings.
- Rendering is not modelled: `display`, the commit-info template, the screen and skin modules, and the terminal output sink.
- Terminal input is a parameter: the results of the handled events in the order they arrive. The event source, its receiver and repository discovery are not modelled, and neither are the other startup failures that end `run` before its first display: `LogState::new` and `Screen::new`.
- Application.App.Run: assumes that after `unblock(true)` the event source delivers nothing more, so the next receive fails and the loop ends. The event source's code is not part of this model.
- Application.App.Run: a `display` error ends `run` early; this is not modelled.
- Application.App.StateMut: a mutable reference is modelled as the index of the top slot. The event handler's own changes to a view's state are not modelled; the commit view's handler changes nothing.
- The log view (`src/log_state.rs`), the commit graph (`src/graph.rs`), the commit-info lookup (`src/git.rs`) and `src/main.rs` are not part of this model.
- `CommandResult` and `AppState::handle_event` do not appear in the shown `src/state.rs`. The model gives `CommandResult` the two values the code matches (`Keep`, `PopState`) plus one for any other result.
