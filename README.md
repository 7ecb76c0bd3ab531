# Jeopardy board, modelled in Dafny

A model of the game logic of `jeopardy.js`, a browser trivia board. The
program keeps one global board, `categories`: a list of categories, each
with a title and `NUM_CLUES_PER_CAT` (5) clues. Each clue has a question, an
answer and a `showing` flag that is `null`, `"question"` or `"answer"`.
`setupAndStart` builds the board. It first draws `NUM_CATEGORIES` (6)
category ids, with replacement, from a pool the remote trivia service
returns. It then resets the board, and for each id it fetches the category
and pushes a category of 5 clues drawn with replacement. Each table cell has
the id `${x}-${y}`. A click on a cell splits that id on `"-"` and advances
the clue's flag: the first click shows the question, the second shows the
answer, and later clicks are ignored.

Files and modules:

- `js.dfy` (`Js`): `undefined` as `Option`, the two failures (a rejected
  HTTP request, a `TypeError`), reading an array past its end, and drawing
  elements with random indices.
- `cell_ids.dfy` (`CellIds`): decimal printing, `String.prototype.split`,
  array index keys, and the cell-id encoding and decoding.
- `board.dfy` (`Board`): the data model, plus the functions that specify
  what `getCategory` pushes (`BuildCategory`) and what the setup loop leaves
  behind (`Fill`).
- `reveal.dfy` (`Reveal`): the reveal transition on one clue (`Reveal`) and
  a click on the board (`Click`).
- `jeopardy.dfy` (`Jeopardy`): `getCategoryIds` as a method with its loop,
  and class `Game`, whose `categories` field changes in place under
  `GetCategory`, `SetupAndStart` and `HandleClick`. Each of these methods is
  proved against the functions above. A worked example, `ClickScenario`,
  builds a one-category board holding the clue {question: "2+2", answer:
  "4"}; three clicks on cell "0-0" are proved to show "2+2", then "4", then
  nothing.

Modelling choices:

- The remote service is given as data. The id pool response is a
  `Result<seq<CategoryRecord>>`, and the category endpoint is a function
  `Fetch` from id to `Result<CategoryData>`. A rejected request is
  `Err(RequestFailed)`. A response whose `data` has no `clues` array makes
  jeopardy.js:69 throw; `Fetch` expresses that as `Err(TypeError)`.
- Each `Math.floor(Math.random() * n)` is a natural number the caller
  supplies. The id draws must be below the literal 100 the code uses. The
  clue draws are any naturals: a draw past the end of the clue list reads
  `undefined`, exactly as the code would. The lemmas that talk about real
  draws assume `IsDraw(i, n)`, which means `i < n`, or `i == 0` when `n == 0`.
- A JavaScript exception is an `Err`/`Fail` value. A category whose clue
  list is empty draws `clues[0]`, which is `undefined`. The `.map` at
  jeopardy.js:72 then throws a `TypeError` before the push, so the board is
  left unchanged.
- `categories[x]` with a string key `x` reaches element n only when `x` is
  the canonical decimal form of n (`IndexKey`). Any other key makes
  `handleClick` throw.
- Clue objects are never shared. `.map` creates a fresh object for every
  slot, even when two slots drew the same raw clue. So a sequence of
  datatype values loses no aliasing.

Behaviour of the code worth knowing:

- Ids are drawn with `Math.floor(Math.random() * 100)`, not from the
  whole pool. A pool with fewer than 100 ids yields `undefined` ids.
- A failed setup is not reported to the user. The rejection of
  `setupAndStart` is never caught; the model returns it as `Fail`.
- A failed pool request rejects before `categories = []`, so the previous
  board stays. A failed category request leaves the categories built
  before it on the board.

## Model

| member | source | states |
|---|---|---|
| `Jeopardy.Game.constructor` | jeopardy.js:21 | the board starts empty, as `let categories = []` |
| `Js.Lookup` | jeopardy.js:43 | `allIds[i]` or `clues[i]` is defined exactly when i is below the length, and is then the i-th element; past the end it is `undefined` |
| `Js.Sample` | jeopardy.js:42-44 | the draw loops at lines 42-44 and 68-70 give one element per draw, in draw order, the k-th being the pool read at the k-th draw; `Jeopardy.Game.SetupAndStart` names its ids as the `Sample` of the pool ids at the id draws |
| `Jeopardy.GetCategoryIds` | jeopardy.js:31-47 | a failed pool request rejects; otherwise exactly `NUM_CATEGORIES` ids, the k-th being the pool's id at the k-th draw (or `undefined` past the pool's end); with at least 100 pool ids every id is defined and comes from the first 100 |
| `Board.WrapClues` | jeopardy.js:72-76 | the mapped clue list exists exactly when every drawn slot is defined; it then has one clue per slot, copying question and answer, with `showing` null; otherwise a TypeError |
| `Board.BuildCategory` | jeopardy.js:61-78 | a failed request propagates; otherwise building succeeds exactly when every draw is inside the clue list, and the category has the response's title and one clue per draw, the j-th being the drawn clue's question and answer with `showing` null |
| `Board.BuildCategoryOkIff` | jeopardy.js:64-76 | with draws from `Math.floor(Math.random() * n)`, a category is built exactly when the request succeeded and its clue list is not empty |
| `Jeopardy.Game.GetCategory` | jeopardy.js:61-80 | on success the board gains exactly one category, the built one, at its end, and the old prefix is unchanged; on failure the board is unchanged and the failure is returned |
| `Board.AllIds` | jeopardy.js:36 | the ids of the pool response, in order; `Jeopardy.GetCategoryIds` states its result directly in terms of the records' `id` fields |
| `Board.Fill` | jeopardy.js:185-187 | the board after the setup loop keeps the old board as a prefix, gains at most one category per id, and the loop passes exactly when every id added one; `Board.FillBoard` states which categories were added |
| `Board.FillBoard` | jeopardy.js:185-187 | the setup loop keeps the old board as a prefix and appends the category built for each id, in id order; it passes exactly when all ids were built, and otherwise stops at the first id whose building failed, with that failure |
| `Board.SetupBoard` | jeopardy.js:183-187 | the board built from an empty board is well formed (5 clues per category) and unrevealed, and category k has the title of id k's response and clues drawn from its clue list; it passes exactly when every category builds, and then holds exactly `NUM_CATEGORIES` categories |
| `Board.SetupPassesIff` | jeopardy.js:183-187 | with real draws, setup passes exactly when every category request succeeds with a non-empty clue list |
| `Jeopardy.Game.SetupAndStart` | jeopardy.js:178-192 | a failed pool request leaves the board as it was; otherwise the new board and outcome are those of the setup loop over the sampled ids, starting from an empty board |
| `Board.SetClue` | jeopardy.js:143 | replacing one clue keeps the board's length, every title, every clue count and every other clue |
| `Reveal.Reveal` | jeopardy.js:141-151 | one click moves the flag one step forward (null to question to answer) and answer stays answer; texts never change; a text is displayed exactly when the flag moved, and it is the question when the new flag is question, otherwise the answer; an ignored click changes nothing |
| `Reveal.ClickStates` | jeopardy.js:119-125 | from a fresh clue, the flag after n clicks is null, question, then answer for every n >= 2, with the texts unchanged |
| `Reveal.ClickReactions` | jeopardy.js:119-125 | from a fresh clue, the first click displays the question, the second the answer, and every later click is ignored |
| `Reveal.AnswerIsTerminal` | jeopardy.js:149-151 | once the answer shows, any number of clicks leaves the clue unchanged and displays nothing |
| `Reveal.Click` | jeopardy.js:127-152 | a click throws a TypeError, with the board untouched, exactly when the id names no clue on the board; otherwise only the addressed clue changes, as one reveal step says |
| `Reveal.ClickPreserves` | jeopardy.js:141-151 | a click keeps the board's shape, every title and every question and answer text, and moves no clue's flag backwards |
| `Reveal.ClickOnCell` | jeopardy.js:107-129 | a click on the cell created for (x, y) reveals the clue at (x, y) and does not throw |
| `Reveal.RenderedCellsOnBoard` | jeopardy.js:103-111 | on a full, well-formed board every cell the table renders addresses a clue |
| `Jeopardy.Game.HandleClick` | jeopardy.js:127-152 | the new board and the displayed result are those of `Click` on the old board |
| `CellIds.Decimal` | jeopardy.js:107 | `${n}` is a non-empty string of digits with no leading zero, one digit exactly when n < 10 |
| `CellIds.IndexKey` | jeopardy.js:141 | how `categories[x]` and `.clues[y]` turn a string key into an index; `CellIds.IndexKeyOfDecimal` and `CellIds.IndexKeyIsDecimal` together state that `IndexKey(k) == Some(n)` exactly when k is `${n}`, so "03" and "" reach no clue |
| `CellIds.IndexKeyOfDecimal` | jeopardy.js:141 | the key `${n}` names array element n |
| `CellIds.IndexKeyIsDecimal` | jeopardy.js:141 | the only key that names array element n is `${n}` |
| `CellIds.JoinSplit` | jeopardy.js:129 | `split` loses nothing: joining the pieces gives back the string, and no piece holds the separator |
| `CellIds.CellId` | jeopardy.js:107 | the id `${x}-${y}` of cell (x, y); splitting it on "-" gives exactly the decimal strings of x and y |
| `CellIds.CellOf` | jeopardy.js:129-141 | the coordinates `let [x, y] = id.split("-")` reaches, read as array index keys; its contract is stated by `CellIds.CellIdRoundTrip` (decoding an encoded cell gives it back) and `CellIds.CellOfPieces` (the converse) |
| `CellIds.Split` | jeopardy.js:129 | `id.split("-")` always yields at least one piece; `CellIds.JoinSplit` states that it loses nothing and that no piece holds the separator |
| `CellIds.CellIdRoundTrip` | jeopardy.js:107-129 | decoding the id of cell (x, y) gives back (x, y) |
| `CellIds.CellIdInjective` | jeopardy.js:107 | distinct cells get distinct ids |
| `CellIds.CellOfPieces` | jeopardy.js:129 | an id that addresses (x, y) splits into pieces whose first two are `${x}` and `${y}` |

## Left out

- The HTTP calls through `axios.get` and the jservice.io endpoints. Their
  responses are parameters, and only the fields the code reads are kept.
- `Math.random` and `Math.floor`: floating point and nondeterminism.
  Each draw is a caller-supplied natural.
- All DOM and jQuery work is presentation: `fillTable`, `showLoadingView`,
  `hideLoadingView`, the `.text(...)` calls and the event wiring. A
  click's displayed text is returned as a `Reaction` instead.
- `async`/`await` scheduling, including a restart that starts while
  another setup is in flight. Setup is an ordinary sequential loop here.
- JavaScript truthiness beyond the three flag values. The flag is a
  three-valued datatype, and answers that are numbers are held as text.
- Keys for `clues[y]` that name a non-index property (the array's own
  `length`, or an inherited one such as `push`): the code would then read
  a property of a number or a function rather than throw. Every such key
  is modelled as naming no clue.
- Coordinates and index keys are unbounded naturals. JavaScript's exponent
  form for `${n}` when n >= 10^21 and the 2^32 - 2 limit on array indices
  are not modelled; the table only prints x < 6 and y < 5, far below both.
- Response fields are assumed present. A response's `title`, and each
  clue's `question` and `answer`, are always strings here. A response
  without a title would be pushed with `title: undefined` and not throw;
  the model cannot express that.
- Repeated requests for one id are given one response. `Fetch` is a
  function of the id, so a run where one of two requests for a duplicated
  id fails in transit and the other succeeds cannot be expressed.
- The commented-out text-based branch of `handleClick` (jeopardy.js:131-139)
  is dead code.
