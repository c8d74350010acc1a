# Water sort solver, modelled in Dafny

This project models the solver in `index.js` of the watersort repository. One
puzzle state is a move log and a list of tubes. A tube is a string of
one-character colour codes, read from the top. A pour moves the whole
same-colour top run of one tube onto another tube. `solve` runs a
breadth-first search that stops at the first state whose every tube is empty
or single-coloured.

Modules:

- `Wrappers` holds `Option`. `pour` signals failure by returning an empty
  list, and `Option` stands in for that.
- `Tubes` models `top_length` (a function `TopRun` and the loop `TopLength`)
  and `pour` (`Pour`). It also defines the run count that measures progress.
- `Puzzle` models the state, one move (`Apply`) and `not_solved` (the loop
  method `NotSolved` and its specification `UnsolvedTubes`). It also models
  `get_choices`: the nested-loop method `GetChoices` and its specification
  `Choices`. `Choices` is proved equal to a filter, `Successors`, over the
  ordered list of all moves, `Candidates`.
- `Search` models the queue of `solve` as successive breadth-first levels.
  `Solve` is the `while` loop. `SearchResult` characterises the state it
  returns.

Tubes keep the source's 1-based numbering: move `Move(i, j)` pours tube `i`
into tube `j`, and tube `k` is `tubes[k - 1]`. The log string
(`",1-2,3-4"`) becomes a sequence of `Move` values. The capacity `m` is a
parameter; the source's default of 4 is not fixed.

Why the search terminates: define the potential of a state as the number of
same-colour runs over all tubes plus the number of empty tubes. Every
successful pour lowers it by exactly one. So no chain of moves is longer than
the starting potential. The breadth-first levels deeper than that are empty,
so the loop of `solve` ends even though it keeps no visited set.

## Model

| member | source | states |
|---|---|---|
| Tubes.TopRun | index.js:13-16 | The top run length is at most the tube's length, and it is 0 exactly for the empty tube. Its characters all equal the first, and the next character, if any, differs. |
| Tubes.TopLength | index.js:13-16 | The counting loop of top_length returns exactly TopRun of the tube. |
| Tubes.TopRunWhole | index.js:14 | The top run covers the whole tube exactly when the tube is single-coloured. |
| Tubes.Pour | index.js:20-27 | The pour fails exactly when the source is empty, or the target is non-empty with another top colour, or the source is single-coloured, or the run does not fit in capacity m. |
| Tubes.PourMoves | index.js:22-24 | On success with k the top run: the source becomes its last part, non-empty and starting with another colour. The target becomes the run on top of the old target and is within m. Total length and the colour multiset of the pair are kept. |
| Tubes.PourWeight | index.js:21-24 | A successful pour lowers the two tubes' weight (runs, or 1 for an empty tube) by exactly one. |
| Puzzle.ApplyFrame | index.js:37-45 | A move succeeds exactly when its pour does. The new state has as many tubes, differs only at the two tubes, which hold the pour's outputs, and has the move appended to the log. |
| Puzzle.ApplyLayout | index.js:39-44 | The list get_choices builds from slices, for i->j and for j->i, is Apply's state. |
| Puzzle.ApplyInvariants | index.js:37-45 | A successful move keeps the colour multiset of all tubes and keeps capacity m if it held. It lowers the potential by exactly one. |
| Puzzle.CandidatesSpec | index.js:35-36 | The moves the nested loops try are exactly the ordered pairs of distinct tube numbers, each once, ordered by the smaller number, then the larger, then towards the larger first. |
| Puzzle.ChoicesAreSuccessors | index.js:35-48 | get_choices's result is the successful moves among the candidate moves, in candidate order. |
| Puzzle.ChoiceProperties | index.js:37-46 | Every choice comes from one valid move whose pour succeeds. It has as many tubes as its parent, and the two named tubes hold the pour's outputs. All other tubes are unchanged, and the log grows by that move. Colours are conserved, capacity is kept, and the potential drops by one. |
| Puzzle.ChoicesComplete | index.js:35-46 | Every valid move whose pour succeeds yields one of the choices. |
| Puzzle.ChoicesOrdered | index.js:35-46 | Choices come in candidate order, so no two come from the same move. |
| Puzzle.ChoicesEmpty | index.js:29-50 | There are no choices exactly when no valid move's pour succeeds. |
| Puzzle.GetChoices | index.js:31-50 | The nested loops return exactly Choices of the state. |
| Puzzle.UnsolvedTubes | index.js:54-60 | The count is at most the number of tubes, and it is 0 exactly when every tube is empty or single-coloured. |
| Puzzle.NotSolved | index.js:54-60 | The counting loop returns exactly UnsolvedTubes of the state's tubes. |
| Puzzle.SolvedHasNoChoices | index.js:21-27 | A state with no unsolved tube has no choices, because pour refuses single-coloured sources. |
| Search.ExpandMember | index.js:87-88 | A state is enqueued after a run of dequeued states exactly when it is a choice of one of them. |
| Search.LevelInvariants | index.js:84-90 | Every state the search reaches after d moves has as many tubes as the input, the same colours, capacity if the input had it, and potential d lower. |
| Search.LevelBound | index.js:84-90 | Levels deeper than the input's potential are empty. |
| Search.LevelReplay | index.js:84-90 | Every state on level d extends the input's log by d moves, and replaying them from the input reaches it. |
| Search.LevelComplete | index.js:84-90 | Every state some sequence of p successful moves reaches is on level \|p\|. |
| Search.SameLogSameState | index.js:84-90 | Two states the search reaches with the same log are on the same level and are equal. |
| Search.RunBound | index.js:84-90 | No sequence of successful moves is longer than the starting potential. |
| Search.QueuePop | index.js:85-88 | Dequeuing the next state of a level and enqueuing its choices moves the queue one position on. |
| Search.QueueEmpty | index.js:84 | The queue runs dry exactly when the current level is used up and the next one is empty. |
| Search.Solve | index.js:82-92 | The loop returns the state SearchResult describes: the first solved state in breadth-first order, or, if there is none, the last state dequeued. |
| Search.ResultAtUnique | index.js:82-92 | Only one stopping point satisfies the description. |
| Search.SearchResultUnique | index.js:82-92 | solve's result is determined by its input and m. |
| Search.SearchResultReached | index.js:82-92 | The result's log extends the input's by moves that reach the result from the input. The result keeps the tubes' count, colours and capacity, and its potential is lower by the number of moves. |
| Search.SearchResultShortest | index.js:82-92 | If any sequence of moves solves the input, the result is solved and uses no more moves than that sequence. |
| Search.SearchResultSolvable | index.js:82-92 | The result is solved exactly when some sequence of moves solves the input. |
| Search.SearchResultOfSolved | index.js:86 | An input that is already solved is returned unchanged. |

## Left out

- Colour codes are assumed to be single UTF-16 code units. JavaScript's `tube[i]` and `tube.length` count UTF-16 code units, while a Dafny `char` is one Unicode scalar value. A colour outside the Basic Multilingual Plane, such as an emoji, takes two code units in `index.js` and one `char` here, so the two would disagree on such a colour.
- `test_choices` and `test_solver` only print to the console. They are not modelled.
- The text of the move log (`','+i+'-'+j`) is not modelled. The log is a sequence of `Move` pairs, and the model parses no strings.
- JavaScript's failure encoding is not modelled: `pour` returns `[]`, and destructuring it gives a falsy `undefined`. `Option` replaces this. On success, get_choices tests the new source (after i->j) or the new target (after j->i). Tubes.PourMoves shows both are non-empty strings. So each `if (a)` test is exactly the success test.
- The default capacity `m = 4` is not fixed. `m` is an argument of every operation.
- The queue's memory growth is not modelled. The search keeps no visited set and can enqueue the same tube layout many times, once for each move sequence that reaches it. Search.SameLogSameState shows that reached states with the same log are equal, so repeated layouts differ in their logs. The model keeps that behaviour but says nothing about cost.
- Puzzle.GetChoices builds each successor with Apply, which replaces the two tubes in place. get_choices instead concatenates slices around the two tubes. Puzzle.ApplyLayout proves the two lists equal.
- Puzzle.GetChoices omits the test `i != j` in the inner loop. There `j` starts at `i + 1`, so the test always holds.
- `index.js` differs from a typical water-sort solver in these ways, and the model follows `index.js`:
  - A pour moves the whole top run or nothing. There is no partial pour of as much as fits.
  - A single-coloured source is refused.
  - A state counts as solved when every tube is empty or single-coloured, even if no tube is full.
  - The heuristic move tiers, best-first frontier, scrambler, multi-donor pours, timers and rendering do not exist in `index.js`.
