# Falling-sand engine: a Dafny model

This project models the simulation engine of a 2-D "falling sand" cellular
automaton (`src/automata_matrix.cc` and `src/automata_matrix.h`). The engine
has two parts.

- The **material registry** (`Cell`) holds five static property tables
  indexed by material ordinal: type, colour, weight, viscosity and name.
  `LoadElements` fills them from a configuration that lists one record per
  material.
- The **grid** (`AutomataMatrix`) is a row-major `width * height` buffer of
  materials with a parallel buffer of `dirty` flags. Cell `(x, y)` lives at
  `y * width + x`, and row 0 is the bottom row.

  One tick (`Update`) scans every index in ascending order:
  - Sand falls as a powder (`UpdatePowder`). It moves into cells of type
    Empty or Liquid: first the cell below, then the diagonal the tick's
    `direction` prefers, then the other diagonal.
  - Water falls under gravity (`ApplyGravity`). It moves into Empty cells
    only. When it is blocked, a liquid makes exactly its viscosity's number
    of sideways attempts (`ApplySpread`).
  - The brush `SetCircle` paints a disc of material over Air cells.

The model is in seven modules:

- `Materials` (materials.dfy): the closed set of materials (`Element`,
  ordinals 0..4, `Count` = 5), the physical classes (`Type`), colours, and
  the property tables as a value (`Table`).
- `Registry` (registry.dfy): the mutable tables as class `Cell`, with
  `LoadElements` proved against the function `Load`.
- `Geometry` (geometry.dfy): flat index and coordinates. `Cells(w, n)` is
  the number of cells in `n` rows, which keeps the index arithmetic linear.
- `Rules` (rules.dfy): the movement rules as functions on the grid's value
  (`seq<Element>`). A fall is an iteration of the one-step function `Drop`.
  A spread is an iteration of `Shift`. A tick is `Scan` over every index.
  The lemmas in this module prove:
  - conservation: every tick is a permutation of the grid;
  - locality bounds on every move;
  - invariance of a sealed border.
  - progress of a spread: a liquid whose fall is blocked, with open cells
    on its preferred side, moves one column per attempt that way.
- `Settling` (settling.dfy): how one grain of Sand settles over successive
  ticks. A tick of a grid whose only moving material is one Sand cell is
  that cell's fall. The grain drops its weight in rows per tick down an
  open column. Once the three cells below it refuse it, every later tick
  leaves the grid unchanged. These lemmas are about `Tick`, which is what
  `Update` computes only on a sealed grid (`BorderIsWall`). On a grid that
  is not sealed, the source's neighbour of a cell in column 0 or w - 1 is
  a cell of another row, while `Open` refuses it. `PowderSettles` requires
  the seal.
- `Fill` (fill.dfy): the constructor's initial layout and the brush, as
  functions.
- `Grid` (grid.dfy): class `AutomataMatrix` over arrays. `SetCell` and
  `SetCellAt` are proved to leave the grid as the plain sequence update at
  the one index they write. Every other method that changes the grid is
  proved to leave exactly the value the `Rules` or `Fill` functions
  compute.

The grid methods read the property tables as an immutable `Table`
parameter, which `Registry.Cell.Snapshot` produces from the registry. The
tick's random `direction` is a parameter. Any non-zero value selects Right,
as the source's conditional does.

The movement rules read neighbours without bounds checks. They are memory
safe only because the border holds material that never moves and is never
entered. This is stated as `BorderIsWall`: every border cell holds a
material that is not Sand or Water and whose type is neither Empty nor
Liquid. The movement methods require it. `TickKeeps` proves that a tick
preserves it, and `InitialGridIsSealed` proves that a freshly constructed
grid has it whenever Bedrock's type is not Empty or Liquid.

Three behaviours of the code are easy to misread; the model follows the
code as written:

- `ApplySpread` makes exactly `spread` attempts. It goes on after a
  successful sideways move and after an attempt where both sides refuse;
  it never stops early.
- The tick dispatches on the material itself (`kSand`, `kWater`), not on
  the material's type.
- The `dirty` flags are written but never read. A cell that moves to a
  higher index, such as water spreading to the right, is visited again
  later in the same tick. `Scan` models this as written.

## Model

| member | source | states |
|---|---|---|
| Geometry.Idx | src/automata_matrix.cc:108-110 | the flat index y*width + x of an in-bounds cell lies inside the width*height buffer |
| Geometry.CellsIsProduct | src/automata_matrix.cc:73-76 | the buffers hold width*height cells: n rows of width w hold n*w cells |
| Geometry.CoordsOfIdx | src/automata_matrix.cc:108-110 | coordinates to flat index and back to column and row is the identity |
| Geometry.IdxOfCoords | src/automata_matrix.cc:104-110 | every index of the buffer is the flat index of an in-bounds cell, so the flat and coordinate forms of GetCell agree |
| Geometry.IdxInjective | src/automata_matrix.cc:108-110 | distinct in-bounds cells have distinct flat indices |
| Registry.Check | src/automata_matrix.cc:29-34 | a configuration is accepted exactly when its "elements" entry is an array of Count records; a missing or non-array entry is InvalidFormat, any other count InvalidCount |
| Registry.Write | src/automata_matrix.cc:37-42 | writing a record sets its slot's type, weight, viscosity and name from the record and its colour from the palette, and leaves every other slot unchanged |
| Registry.Load | src/automata_matrix.cc:36-43 | definition: the records written in order, each over the tables the earlier ones left; LoadUntouched, LoadLastWins and LoadCovers state what that leaves |
| Registry.LoadUntouched | src/automata_matrix.cc:36-43 | a slot that no record names keeps its previous properties |
| Registry.LoadLastWins | src/automata_matrix.cc:36-43 | a slot holds the properties of the last record that names it |
| Registry.LoadCovers | src/automata_matrix.cc:36-43 | when every slot is named by some record, the loaded tables do not depend on the tables before the load |
| Registry.Cell.Snapshot | src/automata_matrix.h:46-50 | the five static arrays, read as one Table value, give each material the properties at its ordinal |
| Registry.Cell.constructor | src/automata_matrix.cc:66-70 | static storage starts zeroed: every type Empty, every colour blank, every weight and viscosity 0, every name empty |
| Registry.Cell.GetType | src/automata_matrix.cc:46-48 | returns the type at the element's ordinal of the tables the rules read |
| Registry.Cell.GetColor | src/automata_matrix.cc:50-52 | returns the colour at the element's ordinal |
| Registry.Cell.GetWeight | src/automata_matrix.cc:54-56 | returns the weight at the element's ordinal |
| Registry.Cell.GetViscosity | src/automata_matrix.cc:58-60 | returns the viscosity at the element's ordinal |
| Registry.Cell.GetName | src/automata_matrix.cc:62-64 | returns the name at the element's ordinal |
| Registry.Cell.GetColorTable | src/automata_matrix.h:41-43 | returns the colour table, one entry per material |
| Registry.Cell.Store | src/automata_matrix.cc:37-42 | one loop iteration writes the record into the slot it names and changes nothing else |
| Registry.Cell.LoadElements | src/automata_matrix.cc:20-44 | the outcome is Check's verdict; a rejected configuration leaves the tables unchanged; an accepted one leaves them equal to Load of the records in order |
| Rules.Swap | src/automata_matrix.cc:139-141 | exchanges exactly the two cells and leaves every other cell unchanged |
| Rules.SwapTwice | src/automata_matrix.cc:139-141 | swapping the same two cells again restores the grid |
| Rules.SwapPermutes | src/automata_matrix.cc:139-141 | a swap preserves the multiset of materials |
| Rules.SwapLocal | src/automata_matrix.cc:139-141 | a swap of two cells within a band of rows changes no cell outside that band |
| Rules.MoverIsInterior | src/automata_matrix.cc:246-258 | on a sealed grid every Sand or Water cell the scan dispatches is off the border, so its eight neighbours exist |
| Rules.Accepts | src/automata_matrix.cc:154-163 | a moving cell may displace an Empty cell always and a Liquid cell only when it sinks (powder, cc:154-163; gravity accepts Empty only, cc:210-218); an Empty cell is always accepted and a wall never is |
| Rules.Preferred | src/automata_matrix.cc:152-153 | the first offset tried is Right (+1) exactly when direction is non-zero, else Left (-1) |
| Rules.Step | src/automata_matrix.cc:154-163 | a cell that a moving cell may enter is never on a sealed border, and the swap keeps the border, the seal and the multiset |
| Rules.FallTarget | src/automata_matrix.cc:151-163 | the chosen cell accepts the moving cell; it is Below exactly when Below accepts, the preferred diagonal (Right when direction is non-zero) only when Below refuses, and the other diagonal only when both refuse; there is none exactly when all three refuse |
| Rules.Drop | src/automata_matrix.cc:150-166 | definition: one iteration of the fall loop, a swap into the cell FallTarget picks, or the break when it picks none; DropMoves, DropPermutes, DropSeals, DropLocal and DropCarries state its properties |
| Rules.Fall | src/automata_matrix.cc:147-167 | definition: up to `steps` iterations of Drop, as the countdown `while (weight-- != 0)` with its break; FallBounds, FallKeeps, FallLocal, FallCarries, FallStraight and FallStops state its properties |
| Rules.DropMoves | src/automata_matrix.cc:150-166 | one iteration of the fall loop moves the cell one row down and at most one column sideways, or ends the fall where it is |
| Rules.DropPermutes | src/automata_matrix.cc:154-163 | one iteration of the fall loop preserves the multiset of materials |
| Rules.DropSeals | src/automata_matrix.cc:154-163 | one iteration of the fall loop keeps a sealed border unchanged and the moving cell off it |
| Rules.DropLocal | src/automata_matrix.cc:154-163 | one iteration of the fall loop changes only the moving cell's row and the row below it |
| Rules.DropCarries | src/automata_matrix.cc:154-163 | after one iteration of the fall loop the tracked position still holds the moving material |
| Rules.DropInterior | src/automata_matrix.cc:151-166 | from an interior cell, a fall step is the source's three-way if-chain over Below and the two diagonals |
| Rules.FallBounds | src/automata_matrix.cc:147-167 | a fall of up to weight steps descends one row per step taken and drifts at most one column per row; it is blocked exactly when it stopped early, and then all three cells below refuse |
| Rules.FallSettles | src/automata_matrix.cc:164-166 | once a fall has stopped, the remaining steps change nothing |
| Rules.FallTrace | src/automata_matrix.cc:150-166 | the landings after 0..n steps each follow from the one before by one step, and a stopped fall stays stopped |
| Rules.FallKeeps | src/automata_matrix.cc:147-167 | a fall preserves the multiset of materials and keeps a sealed border unchanged |
| Rules.FallLocal | src/automata_matrix.cc:147-167 | a fall of up to weight steps from row y changes no cell outside rows y - weight .. y |
| Rules.FallCarries | src/automata_matrix.cc:147-167 | the position where a fall ends, whose dirty flag is cleared, holds the material that started falling |
| Rules.FallStraight | src/automata_matrix.cc:150-156 | a cell whose cells straight below all accept it falls exactly weight rows straight down, unblocked |
| Rules.FallRests | src/automata_matrix.cc:154-166 | a cell whose three cells below all refuse does not move: the grid and the cell stay, and the fall is blocked as soon as it takes a step |
| Rules.FallEnds | src/automata_matrix.cc:164-166 | a fall that reaches a resting cell unblocked breaks there on its next step and stays |
| Rules.FallStops | src/automata_matrix.cc:147-167 | above a column of m accepting cells whose lowest cell rests, a fall goes straight down min(m, steps) rows, is blocked exactly when steps > m, and changes no row outside those it passed |
| Rules.SpreadTarget | src/automata_matrix.cc:231-239 | the chosen cell is the preferred side (Right when direction is non-zero) exactly when that side is Empty, else the other side, and it has type Empty; there is none exactly when both refuse |
| Rules.Shift | src/automata_matrix.cc:231-239 | definition: one iteration of the spread loop, a swap into the cell SpreadTarget picks or no move; ShiftMoves, ShiftPermutes, ShiftSeals, ShiftLocal and ShiftCarries state its properties |
| Rules.Spread | src/automata_matrix.cc:229-241 | definition: exactly n iterations of Shift, as `while (spread-- != 0)` without a break; SpreadBounds, SpreadKeeps, SpreadLocal, SpreadCarries, SpreadWhenBlocked and SpreadStraight state its properties |
| Rules.ShiftMoves | src/automata_matrix.cc:231-239 | one sideways attempt keeps the cell in its row and moves it at most one column; when both sides refuse it does not move |
| Rules.ShiftPermutes | src/automata_matrix.cc:233-238 | one sideways attempt preserves the multiset of materials |
| Rules.ShiftSeals | src/automata_matrix.cc:233-238 | one sideways attempt keeps a sealed border unchanged and the moving cell off it |
| Rules.ShiftLocal | src/automata_matrix.cc:233-238 | one sideways attempt changes only the moving cell's row |
| Rules.ShiftCarries | src/automata_matrix.cc:233-238 | after one sideways attempt the tracked position still holds the moving material |
| Rules.ShiftInterior | src/automata_matrix.cc:231-239 | from an interior cell, a sideways attempt is the source's two-way if-chain |
| Rules.SpreadTrace | src/automata_matrix.cc:230-240 | the cursors after 0..n attempts each follow from the one before by one attempt |
| Rules.SpreadBounds | src/automata_matrix.cc:229-241 | after exactly n attempts the cell is in its row, at most n columns from where it started |
| Rules.SpreadWhenBlocked | src/automata_matrix.cc:229-241 | a cell whose two sides both refuse stays where it is for all its attempts |
| Rules.SpreadStraight | src/automata_matrix.cc:229-241 | a cell with n cells in a row on its preferred side that accept it (Empty) moves exactly n columns that way in its n attempts, staying in its row |
| Rules.SpreadKeeps | src/automata_matrix.cc:229-241 | a spread preserves the multiset of materials and keeps a sealed border unchanged |
| Rules.SpreadLocal | src/automata_matrix.cc:229-241 | a spread changes no cell outside the moving cell's row |
| Rules.SpreadCarries | src/automata_matrix.cc:229-241 | the position a spread returns through its reference parameter holds the spreading material |
| Rules.Gravity | src/automata_matrix.cc:202-227 | definition: a fall of weight steps into Empty cells only, then, if it was blocked and the material is a liquid, a spread of viscosity attempts from where it stopped; GravityBounds, GravityKeeps, GravityLocal, GravityCarries and GravitySpreads state its properties |
| Rules.GravityBounds | src/automata_matrix.cc:202-227 | under gravity a cell never rises, falls at most its weight in rows, and drifts at most one column per row fallen plus its viscosity if it is a liquid |
| Rules.GravityKeeps | src/automata_matrix.cc:202-227 | gravity, including the spread, preserves the multiset of materials and keeps a sealed border unchanged |
| Rules.GravityLocal | src/automata_matrix.cc:202-227 | gravity changes no cell outside the rows from the cell's row down to weight rows below it |
| Rules.GravityCarries | src/automata_matrix.cc:202-227 | the position gravity ends at, whose dirty flag is cleared, holds the material that moved |
| Rules.GravitySpreads | src/automata_matrix.cc:202-241 | a liquid whose three cells below all refuse, with weight at least 1 and as many Empty cells on its preferred side as its viscosity, ends gravity in its own row that many columns to the preferred side: the blocked fall hands it to the spread |
| Rules.Visit | src/automata_matrix.cc:246-258 | the grid after the switch at one index stays a grid of the same size; Sand falls as a powder, Water under gravity, everything else is left alone (VisitKeeps) |
| Rules.Scan | src/automata_matrix.cc:245-260 | the grid after visiting indices 0..i-1 in ascending order, each seeing the grid the earlier ones left, stays a grid of the same size (ScanKeeps, InertScan) |
| Rules.Tick | src/automata_matrix.cc:243-262 | one tick, every index visited once with one shared direction, leaves a grid of the same size (TickKeeps) |
| Rules.VisitKeeps | src/automata_matrix.cc:246-259 | dispatching one index preserves the multiset of materials and a sealed border |
| Rules.ScanKeeps | src/automata_matrix.cc:245-260 | scanning the first i indices preserves the multiset of materials and a sealed border |
| Rules.TickKeeps | src/automata_matrix.cc:243-262 | a tick is a permutation of the grid and leaves every cell of a sealed border unchanged, so the next tick is sealed too |
| Rules.InertScan | src/automata_matrix.cc:246-259 | the tick acts only on Sand and Water: a grid holding neither is left unchanged |
| Settling.LoneSandCount | src/automata_matrix.cc:246-258 | the only Sand or Water of a grid is one Sand cell at k exactly when the grid holds one Sand, at k, and no Water |
| Settling.ScanInert | src/automata_matrix.cc:245-260 | visiting indices whose cells hold neither Sand nor Water leaves the grid unchanged |
| Settling.ScanToLoneSand | src/automata_matrix.cc:245-252 | the scan reaches a lone Sand cell with the grid unchanged, and visiting it is its fall |
| Settling.FallLoneSand | src/automata_matrix.cc:147-167 | the fall of a lone Sand cell leaves it alone, on the grid, at an index no greater than where it started |
| Settling.TickLoneSand | src/automata_matrix.cc:243-262 | on a sealed grid (where Tick models Update), a tick of a grid whose only Sand or Water is one Sand cell is exactly that cell's fall, after which the grain is still alone at an index no greater |
| Settling.TickSandDrops | src/automata_matrix.cc:243-262 | on a sealed grid, a lone grain above m open cells whose lowest cell rests drops straight down min(m, weight) rows in one tick, whatever the direction, changing no other rows |
| Settling.TickSandRests | src/automata_matrix.cc:243-262 | on a sealed grid, a lone grain whose three cells below refuse it is at rest: the tick leaves the grid unchanged, whatever the direction |
| Settling.Ticks | src/automata_matrix.cc:243-262 | successive calls of Update, one direction per tick, leave a grid of the same size |
| Settling.TicksSandRests | src/automata_matrix.cc:243-262 | on a sealed grid, a grain at rest stays at rest: any sequence of further ticks leaves the grid unchanged |
| Settling.TicksSandFalls | src/automata_matrix.cc:243-262 | on a sealed grid, a lone grain above m open cells whose lowest cell rests is, after any n ticks with n * weight >= m, alone at the bottom of the column and resting there, with no row outside the column's changed |
| Settling.PowderSettles | src/automata_matrix.cc:243-262 | on a sealed grid a lone grain of weight at least 1 above an open column reaches row 1, just above the Bedrock floor, within y - 1 ticks (fewer than the height), and every later tick leaves the grid unchanged |
| Fill.InitialGrid | src/automata_matrix.cc:72-93 | the initial layout has exactly width*height cells |
| Fill.InitialAt | src/automata_matrix.cc:80-86 | definition: Bedrock on the border, Sand in the interior of column width/2, Air elsewhere; InitialGridAt states it cell by cell |
| Fill.InitialGridAt | src/automata_matrix.cc:78-92 | each border cell is Bedrock, each interior cell in column width/2 is Sand, every other cell is Air |
| Fill.InitialGridIsSealed | src/automata_matrix.cc:80-81 | a new grid is sealed when Bedrock's type is neither Empty nor Liquid |
| Fill.InBrush | src/automata_matrix.cc:118-121 | definition: the offset (i, j) lies in the square -radius..radius the loops cover and i*i + j*j <= radius*radius |
| Fill.Painted | src/automata_matrix.cc:116-134 | painting changes only Air cells, and each cell it changes becomes the painted material |
| Fill.PaintedAt | src/automata_matrix.cc:118-131 | an in-bounds cell changes exactly when it holds Air and its offset (i, j) from the centre lies within the square loop bounds and i*i + j*j <= radius*radius |
| Fill.PaintTwice | src/automata_matrix.cc:116-134 | painting a second time with the same arguments changes nothing |
| Fill.PaintKeepsSeal | src/automata_matrix.cc:116-134 | when Air is not a wall material, painting never changes a sealed border |
| Grid.AutomataMatrix.constructor | src/automata_matrix.cc:72-93 | the new grid (400 x 300 by default, as declared at automata_matrix.h:58) holds the initial layout and every dirty flag is 1 |
| Grid.AutomataMatrix.NeighbourCoords | src/automata_matrix.cc:95-102 | each neighbour helper steps to the named neighbour, with row 0 at the bottom |
| Grid.AutomataMatrix.BelowCoords | src/automata_matrix.cc:96-102 | Below, BelowRight and BelowLeft step to (x, y-1), (x+1, y-1) and (x-1, y-1) |
| Grid.AutomataMatrix.SideCoords | src/automata_matrix.cc:97-98 | Right and Left step to (x+1, y) and (x-1, y) |
| Grid.AutomataMatrix.GetCell | src/automata_matrix.cc:104-106 | the flat read of the cell buffer at pos, within its bounds |
| Grid.AutomataMatrix.GetCellAt | src/automata_matrix.cc:108-110 | the coordinate form reads the same cell as the flat form |
| Grid.AutomataMatrix.SetCell | src/automata_matrix.cc:112-114 | writes the one cell and leaves the others unchanged |
| Grid.AutomataMatrix.SetCellAt | src/automata_matrix.cc:135-137 | writes the one cell (x, y) and leaves the others unchanged |
| Grid.AutomataMatrix.SwapCells | src/automata_matrix.cc:139-141 | the grid after the call is Swap of the grid before it |
| Grid.AutomataMatrix.SwapCellsAt | src/automata_matrix.cc:143-145 | the coordinate form swaps the same two cells as the flat form |
| Grid.AutomataMatrix.SetCircle | src/automata_matrix.cc:116-134 | the grid after the call is Painted of the grid before it |
| Grid.AutomataMatrix.Descend | src/automata_matrix.cc:151-166 | one iteration of the fall loop leaves the grid, the position and the blocked verdict that Drop computes |
| Grid.AutomataMatrix.UpdatePowder | src/automata_matrix.cc:147-169 | the grid after the call is the powder Fall of the element's weight steps from pos, and exactly the flag of the final position is cleared |
| Grid.AutomataMatrix.Slide | src/automata_matrix.cc:231-239 | one iteration of the spread loop leaves the grid and the position that Shift computes |
| Grid.AutomataMatrix.ApplySpread | src/automata_matrix.cc:229-241 | the grid after the call is Spread of exactly `spread` attempts, and the returned position is where the cell ends up (the by-reference pos of src/automata_matrix.h:83) |
| Grid.AutomataMatrix.ApplyGravity | src/automata_matrix.cc:202-227 | the grid after the call is Gravity from pos, and exactly the flag of the final position, after any spread, is cleared |
| Grid.AutomataMatrix.Update | src/automata_matrix.cc:243-262 | the grid after the call is Tick of the grid before it, and every dirty flag is 1 |

## Left out

- Reading the configuration file and parsing JSON (src/automata_matrix.cc:21-27) are I/O and a foreign library. `LoadElements` takes the already-parsed configuration. A file that cannot be opened is not modelled.
- The cast of a record's type number to `Type` is part of parsing. A record's `kind` is already a `Type`, so type numbers outside the enumeration are not modelled.
- Registry.Cell.LoadElements: requires every record of an accepted configuration to name a slot in 0..Count-1. The source writes out of bounds otherwise.
- Rules.Terminating: weights and viscosities are required to be non-negative, so a negative weight is not modelled. With a negative weight the fall loops of `UpdatePowder` and `ApplyGravity` (src/automata_matrix.cc:150, 206) count down past zero without ever reaching it, so they run until the fall is blocked and leave at the `break`. On a sealed grid that happens within y moves. Only `ApplySpread` has no `break`, so only a negative viscosity keeps its loop running.
- Grid.AutomataMatrix.UpdatePowder, Grid.AutomataMatrix.ApplyGravity and Grid.AutomataMatrix.ApplySpread require a sealed border (`BorderIsWall`) and an interior position. The source reads neighbours without bounds checks and relies on the Bedrock border for memory safety.
- Grid.AutomataMatrix.Update takes no position. It requires a sealed border (`BorderIsWall`) and non-negative weights and viscosities (`Terminating`), for the same reasons as the methods it calls.
- Grid.AutomataMatrix.constructor: requires a non-negative width and height. In the source, `cell.resize(width*height)` throws for a negative product, and a grid with both sizes negative is not modelled.
- The rule functions are total. `Open` treats a neighbour outside the grid as refusing. On a sealed grid this guard never decides anything, and the methods never reach it.
- The random draw of `direction` (`GetRandomValue`) is a foreign call. It is a parameter of `Update`.
- `UpdateWater` (src/automata_matrix.cc:171-200) is never called, since its call site is commented out. It is not part of this model.
- The `heat` and `shade` buffers are only ever zero-filled. `GetPixelArray`, `GetMatrix` and the rendering and application files are presentation. None of them is part of this model.
- 32-bit `int` overflow is not modelled. This covers `y*width + x`, `width*height` and `i*i + j*j`: integers are unbounded.
- The loop bodies of the fall and spread loops are the methods `Descend` and `Slide`. Their behaviour is the same as the inline code.
- `std::ranges::fill(dirty, 1)` is an aggregate assignment to every flag.
