# ChessBot core in Dafny

ChessBot has two parts, and this project models the core of both.

- `engine/main.c` is a C chess engine. It keeps one bitboard per piece kind (twelve 64-bit sets of squares), three occupancy boards, the side to move, the en-passant square and four castling-right bits.
  - Attack tables for pawns, knights and kings are precomputed.
  - Bishops and rooks use magic-bitboard lookup tables, built from relevant-occupancy masks and `setOccupancy`.
  - Moves are packed into 24-bit integers and kept in a 256-entry move list.
  - `makeMove` plays a move and undoes it when it leaves the mover's king attacked.
  - The searches are perft, a quiescence search and a negamax alpha-beta search. Moves are ordered by MVV-LVA (most valuable victim, least valuable attacker) with an exchange sort.
- `engine/magic.h` holds the xorshift pseudo-random generator that `findMagicNumber` draws its candidates from.
- `Board.py` and `Pieces.py` are the Python prototype:
  - a dictionary of named pieces on an 8×8 grid;
  - ray and jump helpers;
  - per-piece legal-move generation that probes each candidate move for check by playing it and taking it back;
  - the board operations that move, capture, castle and take en passant.

## How the model is organised

Modules follow the C file's sections:

- `Bits`: squares, bitboards, `set_bit`/`pop_bit`/`getLSBIndex`/`countBits`.
- `Leapers`: pawn, knight and king attack masks.
- `Sliders`: relevant-occupancy masks and on-the-fly ray attacks.
- `Occupancy`: `setOccupancy`.
- `Magic`: the magic-candidate test of `findMagicNumber`.
- `Prng`: the xorshift generator of `magic.h`.
- `Tables`: `initSliderAttacks` and the table lookups.
- `Moves`: move encoding and the move list.
- `State`: `makeMove`'s update, as a function of the position.
- `Generate` and `GenerateFacts`: `generateMoves`, as a function of the position, and its properties.
- `Eval`: `evaluate`.
- `Order`: `scoreMove` and `sortMoves`.
- `Search`: the values perft, quiescence and negamax compute.
- `Engine`: the engine's global board as a class whose methods are proved against those functions.

The Python prototype is modelled in these modules:

- `ProtoGrid`: the ray and jump helpers of `Board.py`.
- `ProtoPieces`: a piece's fields and `setPosition`.
- `ProtoRules`: the board as a value, the dictionary operations, attack walks, captures, the probes and the moves.
- `ProtoLegal`: `getLegalMoves` and `getAllLegalMovesStart`.
- `ProtoBoard`: the `Board` class whose methods update that state in place.

Machine integers are modelled as follows:

- 64-bit boards are `bv64`.
- The xorshift state is `bv32`.
- Moves are `int`s with the packing written out.
- The C code's unsigned wrap-around appears where it matters: the magic multiplication, and the 32-bit shifts in the generator.

## Model

| member | source | states |
|---|---|---|
| Bits.Decompose | engine/main.c:11-78 | a square's index is 8·rank + file, with rank and file in 0..7 |
| Bits.SetBitSpec | engine/main.c:844 | set_bit sets square s and leaves every other square as it was |
| Bits.PopBitSpec | engine/main.c:843 | pop_bit clears square s and leaves every other square as it was |
| Bits.MembersSetBit | engine/main.c:844 | as a set of squares, set_bit adds s |
| Bits.MembersPopBit | engine/main.c:456 | as a set of squares, pop_bit removes s |
| Bits.LsbFirst | engine/main.c:453 | getLSBIndex of a non-empty board names its lowest set square, and no lower square is set |
| Bits.PopBitDecreases | engine/main.c:453-457 | popping the lowest square of a non-empty board gives a smaller board, so every `while (bitboard)` loop terminates |
| Bits.PopCountPopBit | engine/main.c:456 | popping a set square lowers countBits by one |
| Bits.PopCountZero | engine/main.c:480 | countBits is 0 exactly for the empty board |
| Bits.RestSpec | engine/main.c:1004-1063 | the board left after popping the lowest square holds every other square of the board and nothing else |
| Leapers.NotAFileSpec | engine/main.c:159 | the not-A-file constant holds exactly the squares off file a |
| Leapers.NotHFileSpec | engine/main.c:161 | the not-H-file constant holds exactly the squares off file h |
| Leapers.NotHGFileSpec | engine/main.c:163 | the not-HG-file constant holds exactly the squares off files g and h |
| Leapers.NotABFileSpec | engine/main.c:165 | the not-AB-file constant holds exactly the squares off files a and b |
| Leapers.PawnTermsSpec | engine/main.c:211-244 | each guarded shift of getPawnAttacks sets exactly the square at one capture displacement, and only when that square is on the board |
| Leapers.PawnAttacksSpec | engine/main.c:211-244 | a pawn's attack mask is exactly the squares one rank forward (up for white, down for black) and one file aside |
| Leapers.PawnOffsets | engine/main.c:211-244 | white pawns attack index −7 and −9, black pawns +7 and +9; an attacked square is never the pawn's own and is one file away |
| Leapers.KnightTermsSpec | engine/main.c:246-275 | each of the eight guarded shifts sets exactly the square a knight's jump away in its direction, and only when the jump does not wrap around a board edge |
| Leapers.KnightAttacksSpec | engine/main.c:246-275 | the knight mask is exactly the on-board squares a knight's jump away |
| Leapers.KnightNoSourceNoWrap | engine/main.c:246-275 | the knight mask never holds the knight's own square or a square more than two files away |
| Leapers.AllSquaresGuard | engine/main.c:287 | a shift guarded by the all-squares mask sets a bit exactly when the C test `if (x)` on the shifted board would be true |
| Leapers.KingTermsSpec | engine/main.c:277-306 | each guarded shift sets exactly the neighbour in its direction, when it is on the board |
| Leapers.KingAttacksSpec | engine/main.c:277-306 | the king mask is exactly the on-board neighbours of the square |
| Leapers.KingNoSourceNoWrap | engine/main.c:277-306 | the king mask never holds the king's own square or a square more than one file away |
| Sliders.MaskRay | engine/main.c:318-321 | one mask loop marks the squares of its ray up to, but not including, the board's edge, with no blocker test |
| Sliders.AttackRay | engine/main.c:378-383 | one on-the-fly loop marks the squares of its ray up to and including the first blocker, and stops there |
| Sliders.WalkStep | engine/main.c:378-383 | one step of a ray loop either hits a blocker and stops, or marks the square and goes on |
| Sliders.MaskBishopAttacks | engine/main.c:308-336 | maskBishopAttacks's board is the relevant bishop mask, and its population is the bishop's relevant-bit count |
| Sliders.BishopMaskAt | engine/main.c:308-336 | a square is in the bishop mask exactly when it is on one of the square's diagonals, is not the square itself, and is not on the board's edge |
| Sliders.MaskRookAttacks | engine/main.c:338-366 | maskRookAttacks's board is the relevant rook mask, and its population is the rook's relevant-bit count |
| Sliders.RookMaskAt | engine/main.c:338-366 | a square is in the rook mask exactly when it is on the square's rank or file, is not the square itself, and is not the last square of its ray |
| Sliders.BishopMaskCount | engine/main.c:169-178 | the bishop mask of every square has as many squares as bishop_relevant_bits says |
| Sliders.BishopSpans | engine/main.c:169-178 | each bishop_relevant_bits entry is the sum of the lengths of the square's four diagonal mask rays |
| Sliders.RookMaskCount | engine/main.c:179-188 | the rook mask of every square has as many squares as rook_relevant_bits says |
| Sliders.RookSpans | engine/main.c:179-188 | each rook_relevant_bits entry is the sum of the lengths of the square's four straight mask rays |
| Sliders.BishopAttacksOnTheFly | engine/main.c:368-404 | getBishopAttacksOnTheFly returns the bishop attack set over the given blockers; it is nonempty and never holds the bishop's square |
| Sliders.BishopAttacksAt | engine/main.c:368-404 | a square is bishop-attacked exactly when it is on a diagonal ray before or at that ray's first blocker |
| Sliders.BishopAttacksNotSelf | engine/main.c:368-404 | the bishop attack set never holds the bishop's own square |
| Sliders.BishopAttacksNonEmpty | engine/main.c:368-404 | a bishop always attacks at least one square |
| Sliders.RookAttacksOnTheFly | engine/main.c:406-443 | getRookAttacksOnTheFly returns the rook attack set over the given blockers; it is nonempty and never holds the rook's square |
| Sliders.RookAttacksAt | engine/main.c:406-443 | a square is rook-attacked exactly when it is on a straight ray before or at that ray's first blocker |
| Sliders.RookAttacksNotSelf | engine/main.c:406-443 | the rook attack set never holds the rook's own square |
| Sliders.RookAttacksNonEmpty | engine/main.c:406-443 | a rook always attacks at least one square |
| Sliders.BishopMasked | engine/main.c:520-529 | keeping only the blockers inside the relevant mask leaves the bishop attack set unchanged, which is why the lookup may mask the occupancy |
| Sliders.RookMasked | engine/main.c:531-539 | the same for the rook |
| Occupancy.SetOccupancy | engine/main.c:445-466 | setOccupancy's loop returns the subset of the mask selected by the index's bits: bit k of the index picks the mask's k-th lowest square |
| Occupancy.OccupancyOf | engine/main.c:445-466 | the selected subset is always inside the mask |
| Occupancy.Round | engine/main.c:450-462 | one loop round pops the lowest remaining mask square and sets it when the round's index bit is set |
| Occupancy.LowestRemaining | engine/main.c:453 | the square getLSBIndex takes in round k is the mask's k-th lowest square |
| Occupancy.OccupancyZero | engine/main.c:445-466 | index 0 selects the empty board |
| Occupancy.OccupancyFull | engine/main.c:445-466 | index 2^n − 1 selects the whole mask |
| Occupancy.OccupancyInjective | engine/main.c:482-486 | different indices below 2^n select different subsets |
| Occupancy.OccupancyComplete | engine/main.c:482-486 | every subset of the mask is selected by some index below 2^n, so the init loop visits every relevant blocker configuration |
| Magic.Pow2Fits | engine/main.c:573-585 | 1 << relevantBits fits the 4096-entry arrays for every relevant-bit count up to 12 |
| Magic.MagicIndex | engine/main.c:615 | (occupancy × magic, wrapped to 64 bits) >> (64 − bits) is below 2^bits |
| Magic.MaskSliderAttacks | engine/main.c:582 | findMagicNumber's mask is the relevant mask of the bishop or the rook, as the flag chooses |
| Magic.SliderAttacksOnTheFly | engine/main.c:592-594 | findMagicNumber's attack entries are the on-the-fly attacks of the bishop or the rook, never empty |
| Magic.Enumerate | engine/main.c:581-595 | the setup loop stores occupancy i and its attack set at index i for every index |
| Magic.Advance | engine/main.c:615-628 | one round of the trial loop either stores the attack set in an empty slot, keeps a slot already holding the same set, or fails on a collision |
| Magic.TryMagic | engine/main.c:606-633 | the trial loop accepts a candidate exactly when no two occupancies with different attack sets share a slot |
| Magic.CandidateAccepted | engine/main.c:601-633 | a candidate is returned exactly when it passes the popcount prefilter and the slot test |
| Magic.Verdicts | engine/main.c:612-629 | the slot test passes exactly when the magic indexes every occupancy to a slot holding its attack set |
| Magic.NoClashCollisionless | engine/main.c:618-622 | passing the slot test with no empty attack set means no two occupancies with different attack sets share a slot |
| Magic.ZeroMarkNeedsAttacks | engine/main.c:618-621 | the empty-slot mark 0 is sound only because attack sets are never empty: two occupancies on one slot, the first with an empty attack set, pass the slot test although they collide |
| Magic.CollisionlessWorks | engine/main.c:612-629 | with no harmful collision on the laid-out arrays, the magic works: every occupancy's slot gives its attack set |
| Magic.WorksCollisionless | engine/main.c:612-629 | a magic whose lookup is right for every occupancy has no harmful collision |
| Magic.FindMagicAccepts | engine/main.c:570-633 | one pass of findMagicNumber's loop accepts a candidate exactly when it passes the prefilter and the magic works |
| Prng.Xorshift.constructor | engine/magic.h:12 | the generator starts at the seed 1804289383 |
| Prng.Xorshift.NextU32 | engine/magic.h:14-27 | the number returned is the xorshift step (<<13, >>17, <<5 on 32 bits) of the old seed, and is stored back as the seed |
| Prng.Xorshift.NextU64 | engine/magic.h:30-37 | the seed moves four steps on, and the result is assembled from those four draws in order |
| Prng.AssembleLanes | engine/magic.h:31-36 | lane k of the assembled 64-bit number is the low 16 bits of draw k |
| Prng.Xorshift.Candidate | engine/magic.h:39-41 | the seed moves three times four steps on, and the candidate is the AND of the three numbers assembled from those runs of draws |
| Prng.CandidateDraws | engine/magic.h:39-41 | those twelve draws are consecutive states of the generator |
| Prng.Sparse | engine/magic.h:40 | the AND of three numbers has no bit that any of them lacks |
| Tables.RelevantBitsRange | engine/main.c:169-188 | every bishop entry is 5..9 and every rook entry is 10..12 |
| Tables.SliderBitsFit | engine/main.c:480-483 | 1 << relevant bits fits each table row: 512 entries for bishops and 4096 for rooks |
| Tables.WorksFits | engine/main.c:491-494 | a working magic sends every occupancy of the square into its row |
| Tables.OccupancyAttacks | engine/main.c:490-502 | the inner loop's occupancy is the index-th subset of the mask, and its attack is that subset's on-the-fly attack set |
| Tables.StoreOccupancy | engine/main.c:490-502 | one inner-loop round stores index i's attack set in the slot its magic index names and changes no other slot |
| Tables.FillStep | engine/main.c:485-504 | with a working magic, storing index k keeps the answers of every earlier index: an earlier occupancy sharing the slot has the same attack set |
| Tables.FillRow | engine/main.c:484-504 | after the inner loop, every occupancy of the square finds its attack set in its row |
| Tables.MaskedRays | engine/main.c:520-539 | the attack set of the masked occupancy is the attack set of the whole occupancy |
| Tables.BoardIndex | engine/main.c:482-486 | every masked occupancy of the board is the occupancy of some loop index |
| Tables.RowLookup | engine/main.c:520-529 | a filled row looked up with any occupancy gives the attack set over that occupancy |
| Tables.TableLookup | engine/main.c:520-539 | the same, for both pieces' tables |
| Tables.SlotLookup | engine/main.c:520-539 | the slot a lookup reads is the slot the init loop filled for that occupancy |
| Tables.SliderTables.constructor | engine/main.c:200-209 | the tables hold the given magic numbers and newly allocated mask and attack arrays |
| Tables.SliderTables.InitSquare | engine/main.c:471-505 | one square's two masks are set and its row is filled; the other masks and the earlier rows are unchanged |
| Tables.SliderTables.InitStep | engine/main.c:471-505 | after square s, the masks and rows of every square up to s are ready |
| Tables.SliderTables.InitSliderAttacks | engine/main.c:469-506 | after initSliderAttacks, every mask is set and every row of the chosen piece is filled |
| Tables.SliderTables.MaskedOccupancy | engine/main.c:522 | `occupancy &= mask` keeps exactly the blockers inside the relevant mask |
| Tables.SliderTables.LookupSlot | engine/main.c:523-524 | the multiply-and-shift gives a slot inside the square's row |
| Tables.SliderTables.SliderLookup | engine/main.c:520-539 | the looked-up entry is the attack set over the occupancy |
| Tables.SliderTables.GetBishopAttacks | engine/main.c:520-529 | once filled, getBishopAttacks returns the bishop attack set over the whole occupancy |
| Tables.SliderTables.GetRookAttacks | engine/main.c:531-539 | once filled, getRookAttacks returns the rook attack set over the whole occupancy |
| Tables.SliderTables.GetQueenAttacks | engine/main.c:541-564 | getQueenAttacks returns the union of the bishop and rook attack sets |
| Moves.PackValue | engine/main.c:657 | the packed move is source + target·2^6 + piece·2^12 + promoted·2^16 + capture·2^20 + double push·2^21 + en passant·2^22 + castling·2^23 |
| Moves.EncodeDecode | engine/main.c:656-665 | each getter of an encoded move gives back the field packed into it, and each flag getter is nonzero exactly when its flag was 1 |
| Moves.DecodeEncode | engine/main.c:656-665 | re-encoding a move's decoded fields gives back the move |
| Moves.MoveList.constructor | engine/main.c:666-669 | a new move list is empty |
| Moves.MoveList.Clear | engine/main.c:988 | `count = 0` empties the list |
| Moves.MoveList.Add | engine/main.c:671-675 | addMoveToMoveList appends the move at the end and keeps every earlier entry |
| State.CastlingRightsClear | engine/main.c:749-758 | the castling-rights table clears exactly the rights that depend on a king or rook on that square; it is 15 everywhere but a1, e1, h1, a8, e8 and h8 |
| State.AndWithin | engine/main.c:903-904 | ANDing castle with the two masks never grants a right |
| State.FirstHolder | engine/main.c:850-858 | the capture loop stops at the first enemy board, in piece order, that holds the target |
| State.RemoveCapturedSpec | engine/main.c:850-858 | a capture takes exactly one enemy piece off the target, from the first enemy board holding it; no other board changes |
| State.PromoteAsWrittenKeeps | engine/main.c:860-861 | the promotion step as written keeps a pawn that stands on the target |
| State.PawnArrives | engine/main.c:843-852 | before the promotion step the moving pawn stands on the target and not on the source |
| State.PromotionLeavesPawn | engine/main.c:860 | with the step as written, a promoting pawn stays on the promotion square beside the promoted piece |
| State.PromotionReplacesPawn | engine/main.c:860 | with the intended step, the target holds the promoted piece and no pawn, and the source holds neither |
| State.OrRangeNext | engine/main.c:909-917 | one more board ORed in is the OR of the longer range |
| State.OrStep | engine/main.c:909-917 | one pass of an occupancy loop adds the next board to both accumulators |
| State.OrRangeSpec | engine/main.c:906-917 | the OR of a range of boards has a square exactly when one of those boards does |
| State.OccupanciesSpec | engine/main.c:906-917 | after the reset, white's occupancy holds a square exactly when a white board does, black's when a black board does, and both's when either does |
| State.Apply | engine/main.c:827-921 | the position after a move is valid, and the other side is to move |
| State.ApplyIs | engine/main.c:827-921 | a position built field by field as makeMove builds it is the applied move |
| State.ApplySpec | engine/main.c:869-921 | after a move: the side flips; occupancies match the boards; the en-passant square is behind a double push's target and is no_sq otherwise; castle is ANDed with both squares' masks and never gains a right |
| State.Meets | engine/main.c:791-825 | two boards ANDed are nonzero exactly when some square is on both |
| State.PawnAttacker | engine/main.c:792-799 | the other side's pawn mask of a square meets the side's pawns exactly when one of them captures onto it |
| State.KnightAttacker | engine/main.c:801-804 | the square's knight mask meets the side's knights exactly when one jumps onto it |
| State.KingAttacker | engine/main.c:805-808 | the square's king mask meets the side's king exactly when it touches the square |
| State.SliderAttacker | engine/main.c:810-822 | a slider lookup meets the side's bishops, rooks or queens exactly when their rays reach the square |
| State.AttackTestSpec | engine/main.c:791-825 | isSquareAttacked's tests decide exactly whether some piece of the side attacks the square |
| Generate.Promotions | engine/main.c:1009-1017 | one promotion move per piece, in the given order |
| Generate.PromotionsFour | engine/main.c:1009-1017 | four promotion pieces give four moves, one per piece in the order given; pushes list queen, rook, knight, bishop and captures list queen, rook, bishop, knight |
| Generate.CastleMove | engine/main.c:1067-1098 | a castling move goes from the king's home square two files right or left, with the castling flag alone set |
| Generate.MovesBelowGrows | engine/main.c:996-1000 | the moves of the piece boards below lo are never more than those below a later bound hi |
| GenerateFacts.DoublePushSound | engine/main.c:1004-1030 | a double push in the generated list is the side's pawn standing on its home rank, moving two squares forward, with the square it passes and the square it lands on both empty |
| GenerateFacts.DoublePushListed | engine/main.c:1004-1030 | conversely, every pawn of the side on its home rank with both squares ahead empty has its double push in the generated list |
| GenerateFacts.EnPassantTarget | engine/main.c:1051-1061 | the pawn taken en passant stands on the board, behind the target |
| GenerateFacts.TargetMovesSpec | engine/main.c:1196-1336 | the target loop lists exactly one move to each target square |
| GenerateFacts.PieceMovesSpec | engine/main.c:1196-1336 | a knight, bishop, rook, queen or king moves to exactly the squares it attacks that its own side does not hold, capturing exactly when an enemy stands there |
| GenerateFacts.CastlesSpec | engine/main.c:1067-1098 | each castling move is listed exactly when that castle is allowed: right held, squares between empty, king and crossed square not attacked |
| GenerateFacts.GenMovesSound | engine/main.c:986-1338 | every generated move is the side's own, moves a piece standing on its source, and can be played; a capture flag means an enemy piece on the target (en passant aside, whose victim stands behind the target), and a move without it goes to a square the enemy occupancy or the occupancy of both sides leaves clear; a double push is a pawn's two steps from its home rank over empty squares |
| GenerateFacts.QuietMovesFree | engine/main.c:986-1338 | with occupancies that agree with the boards, as makeMove leaves them, a generated move without the capture flag goes to a square no enemy piece holds: with GenMovesSound, the flag is set exactly when an enemy stands on the target (en passant aside) |
| GenerateFacts.PiecesInRange | engine/main.c:986-1338 | every generated move names one of the twelve piece boards |
| Eval.Mirror | engine/main.c:1676-1686 | the mirror square is on the same file and the opposite rank |
| Eval.MirrorTwice | engine/main.c:1676-1686 | mirroring twice gives back the square |
| Eval.ColourSymmetry | engine/main.c:1714-1736 | a black piece on the mirrored square is worth exactly the negation of the white piece of that kind on the square |
| Eval.AddBoard | engine/main.c:1698-1740 | one board's loop adds that board's score to the running score |
| Eval.BoardScoreSum | engine/main.c:1698-1740 | a board's score is the sum of its squares' scores, whatever order the loop pops them in |
| Order.MvvLvaFormula | engine/main.c:1750-1765 | mvv_lva[attacker][victim] is 100·(victim's kind + 1) + 5 − attacker's kind |
| Order.MvvLvaOrder | engine/main.c:1750-1765 | a more valuable victim always scores higher, and with the same victim a cheaper attacker scores higher |
| Order.LastHolder | engine/main.c:1774-1785 | scoreMove's victim loop ends on the fallback or on an enemy board that holds the target |
| Order.VictimSpec | engine/main.c:1774-1785 | when exactly one enemy board holds the target, the victim is that board |
| Order.NoHolder | engine/main.c:1774-1785 | when no enemy board holds the target, the victim stays the white pawn |
| Order.MoveScoreRange | engine/main.c:1772-1793 | a quiet move scores 0, and a capture scores 100..605 |
| Order.Swap | engine/main.c:1824-1828 | one exchange trades the two scores and the two moves, keeps the multiset of moves, and keeps each move's score beside it |
| Order.Exchange | engine/main.c:1815-1830 | after the inner loop for position current, every score up to current is at least every later score, and the moves are a reordering |
| Order.ExchangeSort | engine/main.c:1807-1831 | sortMoves's list is a reordering of the input, by non-increasing score |
| Search.Best | engine/main.c:1959-1963 | the best is at least the start and every score, and is one of them |
| Search.KeptMovesAre | engine/main.c:935-946 | the moves makeMove keeps are exactly the moves of the list it keeps |
| Search.StandPat | engine/main.c:1835-1842 | the quiescence value is never below the static evaluation, and is the evaluation when no capture is kept |
| Search.CaptureBelow | engine/main.c:1860-1900 | the quiescence value is at least every kept capture's negated value |
| Search.QValueIsBest | engine/main.c:1833-1904 | above the leaves, the quiescence value is the best of the evaluation and the capture scores |
| Search.StandPatCut | engine/main.c:1839-1843 | an evaluation at or above beta cuts to beta |
| Search.QuiescenceWindow | engine/main.c:1833-1904 | the loop's alpha, when not cut, is the quiescence value clamped to the window |
| Search.MateOrStalemate | engine/main.c:1972-1984 | a node without a legal move scores the mate score plus ply when in check, and 0 otherwise |
| Search.NodeIsBest | engine/main.c:1930-1971 | a node with a legal move scores the maximum of its moves' scores |
| Search.BestMoveExists | engine/main.c:1930-1971 | some kept move reaches the node's value exactly |
| Search.MoveBelow | engine/main.c:1930-1971 | no kept move scores more than the node's value |
| Search.HasLegalMove | engine/main.c:1944 | a kept generated move rules out mate and stalemate |
| Search.ExtendedDepth | engine/main.c:1914-1917 | the children are searched one ply more when in check, less one |
| Search.NegamaxLeaf | engine/main.c:1907-1910 | at depth 0 negamax is the quiescence search |
| Search.NegamaxWindow | engine/main.c:1930-1971 | the loop's alpha, when not cut, is the node's value clamped to the window |
| Search.NegamaxOutcome | engine/main.c:1953-1991 | the node returns beta after a cut, the mate or stalemate score without a legal move, and the raised alpha otherwise |
| Search.OffRootStoresUnset | engine/main.c:1986-1989 | as written, a node off the root whose alpha rose stores the never-written bestMoveSoFar into bestMove |
| Search.StoreAtRootSpec | engine/main.c:1986-1989 | as intended, bestMove changes only at the root, to the last move that raised alpha |
| Search.PerftOne | engine/main.c:1347-1369 | at depth 1 perft counts the legal moves |
| Search.PerftTotal | engine/main.c:1357-1367 | the loop over the generated moves adds up to the node's perft count |
| Engine.Board.constructor | engine/main.c:775-783 | a board set up on a given position, ready with filled tables, at ply 0 |
| Engine.Board.Restore | engine/main.c:768-773 | restore_board puts back the saved position |
| Engine.Board.IsSquareAttacked | engine/main.c:791-825 | isSquareAttacked is true exactly when some piece of the side attacks the square |
| Engine.Board.Lookup | engine/main.c:810-822 | each slider lookup over both sides' occupancy is that piece's rays from the square |
| Engine.Board.RemoveCapture | engine/main.c:850-858 | the capture loop removes the captured piece as RemoveCapturedSpec describes |
| Engine.Board.MoveStep | engine/main.c:843-844 | the piece leaves the source and lands on the target |
| Engine.Board.PromoteStep | engine/main.c:858-862 | the intended promotion step (see Findings) |
| Engine.Board.EnPassantStep | engine/main.c:863-868 | the enemy pawn behind the target is taken, and the mover stands on the target |
| Engine.Board.CastleStep | engine/main.c:875-897 | the castling rook moves over the king: h1 to f1, a1 to d1, h8 to f8, a8 to d8 |
| Engine.Board.Place | engine/main.c:842-897 | the piece boards after the move's steps are as the position update says |
| Engine.Board.ResetOccupancies | engine/main.c:906-917 | the occupancies are rebuilt from the boards (see State.OccupanciesSpec) |
| Engine.Board.Play | engine/main.c:842-920 | before the legality test, the globals are the applied move |
| Engine.Board.SetEnPassant | engine/main.c:869-873 | the en-passant square is cleared, then set behind a double push's target |
| Engine.Board.RevokeRights | engine/main.c:903-904 | the rights are ANDed with both squares' masks |
| Engine.Board.KingLeftAttacked | engine/main.c:923 | the test is true exactly when the mover's king is attacked after the move |
| Engine.Board.MakeLegal | engine/main.c:829-933 | a move is kept exactly when it is legal; a kept move leaves the applied position and any other leaves the board unchanged |
| Engine.Board.MakeMove | engine/main.c:827-947 | a move is kept exactly when it is legal and is a capture or all moves were asked for; kept moves are applied and every other move leaves the board as it was |
| Engine.Board.Evaluate | engine/main.c:1688-1748 | evaluate returns the position's evaluation, negated for black |
| Engine.Board.GenerateMoves | engine/main.c:986-1338 | the list holds exactly the generated moves in the source's order |
| Engine.Board.AddPieceMoves | engine/main.c:996-1336 | one board's turn of the piece loop appends that board's moves |
| Engine.Board.AddKingMoves | engine/main.c:1067-1098 | the king's turn appends the castles, then the king's own moves |
| Engine.Board.AddSources | engine/main.c:1000-1063 | the source loop appends the moves of each square of the board, lowest first |
| Engine.Board.AddPawnMoves | engine/main.c:1000-1065 | one pawn's block appends its pushes, its captures and its en-passant capture |
| Engine.Board.AddPromotions | engine/main.c:1009-1017 | four promotions are appended in order |
| Engine.Board.AddPushes | engine/main.c:1004-1030 | one pawn's pushes are appended (see GenerateFacts.DoublePushSound and GenerateFacts.DoublePushListed) |
| Engine.Board.AddPawnCaptures | engine/main.c:1032-1050 | the capture loop appends the promotion captures or the single capture for each attacked enemy square |
| Engine.Board.AddEnPassant | engine/main.c:1051-1061 | the en-passant capture is appended when the pawn attacks the en-passant square |
| Engine.Board.AddCastles | engine/main.c:1067-1098 | the king-side castle, then the queen-side castle, each when allowed |
| Engine.Board.KingSideFree | engine/main.c:1070-1082 | the king-side test is true exactly when that castle is allowed |
| Engine.Board.QueenSideFree | engine/main.c:1084-1097 | the queen-side test is true exactly when that castle is allowed |
| Engine.Board.AddPieceSource | engine/main.c:1196-1336 | a non-pawn piece's moves are appended (see GenerateFacts.PieceMovesSpec) |
| Engine.Board.AddTargets | engine/main.c:1206-1219 | the target loop appends one move per target square, lowest first |
| Engine.Board.AddTarget | engine/main.c:1208-1217 | a target holding an enemy piece gives a capture, and any other target a quiet move |
| Engine.Board.ScoreMove | engine/main.c:1772-1793 | scoreMove returns the move's MVV-LVA score (see Order.MoveScoreRange) |
| Engine.Board.SortMoves | engine/main.c:1807-1831 | sortMoves leaves a reordering of the list, by non-increasing score |
| Engine.Board.SortedMoves | engine/main.c:1927-1928 | the searches' list holds the generated moves, reordered by score |
| Engine.Board.PerftDriver | engine/main.c:1347-1369 | nodes grows by the perft count of the position, and the board is as it was |
| Engine.Board.PerftMove | engine/main.c:1359-1366 | one move adds its subtree's leaves when kept and nothing otherwise, and restores the board |
| Engine.Board.Quiescence | engine/main.c:1833-1904 | quiescenceSearch returns the quiescence value clamped to the window, and leaves board and ply as they were |
| Engine.Board.QuiescenceLoop | engine/main.c:1856-1900 | after a cut the value is at least beta; otherwise the loop returns the best of the start and the capture scores |
| Engine.Board.QuiescenceMove | engine/main.c:1860-1900 | one move decides the loop as its score does |
| Engine.Board.KingInCheck | engine/main.c:1914 | inCheck is true exactly when the side to move's king is attacked |
| Engine.Board.Negamax | engine/main.c:1906-1993 | negamax returns the search value: the mate or stalemate score when no move is legal, otherwise the node's value clamped to the window; board and ply are as they were; at the root, when the value lies strictly inside the window and a move is legal, bestMove is a kept move scoring that value |
| Engine.Board.NegamaxNode | engine/main.c:1912-1991 | a node above depth 0 returns the search value: the mate or stalemate score when no move is legal, otherwise the value clamped to the window; board and ply are restored, and at the root bestMove is a kept move scoring a value strictly inside the window |
| Engine.Board.NegamaxMove | engine/main.c:1932-1970 | one move decides the loop as its score does |
| ProtoGrid.Walk | Board.py:6-42 | a ray loop yields its squares step by step from the start, as many as fit on the board |
| ProtoGrid.StraightMoves | Board.py:6-42 | there are four straight rays |
| ProtoGrid.DiagonalMoves | Board.py:45-89 | there are four diagonal rays |
| ProtoGrid.Ray | Board.py:6-89 | every ray from an on-grid square runs outward one step at a time and stays on the grid |
| ProtoGrid.StraightRays | Board.py:6-42 | each straight ray runs outward to its edge, the rays have the expected lengths, and together they hold 2·(limit − 1) squares |
| ProtoGrid.DiagonalRays | Board.py:45-89 | each diagonal ray runs outward, as long as the nearer of the two edges it heads for allows |
| ProtoGrid.KeepOnGrid | Board.py:107-111 | the filter keeps exactly the on-grid locations, in order |
| ProtoGrid.KnightJumps | Board.py:92-112 | the knight jumps are exactly the on-grid squares a knight's jump away, at most eight, in the listed order |
| ProtoPieces.Placed | Pieces.py:28-37 | setPosition moves the piece; when marking, it sets hasMoved and sets canBePassanted exactly when the row changed by two; no other field changes |
| ProtoPieces.PlacedBack | Pieces.py:28-37 | moving without marking and moving back gives the piece back unchanged |
| ProtoPieces.Piece.constructor | Pieces.py:14-21 | a new piece has not moved, is not captured, cannot be taken en passant and has no legal moves |
| ProtoPieces.Piece.SetPosition | Pieces.py:28-37 | the piece's new fields are as setPosition sets them |
| ProtoRules.KeyIndex | Board.py:312-317 | the index is where the name is keyed, or the dictionary's length when it is absent |
| ProtoRules.PutKeeps | Board.py:261 | after d[name] = piece the dictionary holds that entry and every other entry it had |
| ProtoRules.RemoveKeeps | Board.py:301 | after del d[name] the dictionary holds every other entry it had |
| ProtoRules.PutRemove | Board.py:261-262 | adding a new key and deleting it again gives back the dictionary |
| ProtoRules.FindFirst | Board.py:312-317 | the lookup finds the first entry in dictionary order whose piece is on the square with the asked colour, and reports none when there is no such entry |
| ProtoRules.PawnAttackSquares | Pieces.py:99-107 | a pawn attacks exactly the on-board squares one row ahead and one column aside, at most two |
| ProtoRules.RayAttacksIff | Pieces.py:128-139 | a ray walk yields the squares up to the first occupied one, that one only when it holds an enemy |
| ProtoRules.SliderAttacks | Pieces.py:240-262 | a rook, bishop or queen attacks exactly what its walks reach along its rays |
| ProtoRules.KnightAttacks | Pieces.py:160-170 | a knight attacks exactly the on-board jump squares its own colour does not hold |
| ProtoRules.KingAttacks | Pieces.py:318-341 | a king attacks exactly the on-board neighbours its own colour does not hold |
| ProtoRules.AttackedIff | Board.py:306-310 | a square is in attackedSquares exactly when it is an attack move of one of that colour's pieces |
| ProtoRules.CheckKingIff | Board.py:194-204 | the king is reported attacked exactly when some enemy piece attacks its square; only attackedSquares changes |
| ProtoRules.TookSpec | Board.py:299-301 | taking an entry removes exactly that name from pieces and appends it to capturedPieces |
| ProtoRules.CaptureSpec | Board.py:293-304 | checkCapture takes the first piece that the capturer takes, or nothing; it never takes one of the capturer's colour; only the taken piece's captured flag changes |
| ProtoRules.ProbeRestores | Board.py:255-268 | after a probe every piece is back where it was; the taken entry is back at the end of pieces; only its captured flag differs |
| ProtoRules.ProbeCastleRestores | Board.py:269-291 | the castle probe leaves the board exactly as it was but for attackedSquares |
| ProtoRules.MoveLogging | Board.py:206-224 | an ordinary move logs the move at the turn, moves and marks the piece, and counts the turn; castles and en passant leave the turn alone |
| ProtoRules.CastleSpec | Board.py:226-235 | castling moves the king two columns toward the rook, the rook three columns (long) or two columns (short) the other way, and marks both |
| ProtoLegal.MoveProbeKeeps | Board.py:255-268 | every move probe leaves the board arranged as before, and the next probe can run |
| ProtoLegal.CastleProbeKeeps | Board.py:269-291 | every castle probe leaves the board arranged as before |
| ProtoLegal.ProbeAllIff | Pieces.py:114-127 | the probing loop keeps exactly the candidates whose probe, on the board the loop holds when it reaches them, reports no check |
| ProtoLegal.ProbedMoves | Pieces.py:114-127 | the probing loop keeps exactly those candidates, and every board it passes through has the same pieces |
| ProtoLegal.PushSquares | Pieces.py:52-56 | a pawn may push one square straight ahead, or two while it has not moved |
| ProtoLegal.ForwardRay | Pieces.py:52-56 | the pawn's straight ray runs to the edge, one row further each step |
| ProtoLegal.CaptureSquares | Pieces.py:57-66 | the pawn's capture candidates are the diagonal squares one row ahead that hold an enemy |
| ProtoLegal.PushShape | Pieces.py:68-74 | the push candidates are the empty squares ahead, up to the first occupied one |
| ProtoLegal.PassantShape | Pieces.py:76-90 | en passant goes only to the square beside the pawn on its row, holding an enemy pawn that may be taken in passing |
| ProtoLegal.PawnLegalShape | Pieces.py:51-97 | a pawn's legal moves are the probed candidates that report no check, plus its en-passant squares, which are not probed |
| ProtoLegal.KingLegalShape | Pieces.py:270-316 | a square is a legal king move exactly when it is an attack square whose probe, on the board the loop reached it with, reports no check, or, for an unmoved king, the long-castle square when the scan found a rook and the castle probe on the board the move probes left reports no check, or the short-castle square when the scan found a rook and its probe on the board the long-castle probe left reports no check |
| ProtoLegal.KingLegalSquares | Pieces.py:270-316 | every legal king move is an on-board neighbour its own colour does not hold, or, for an unmoved king, a castle square with an unmoved rook of its colour there and only empty squares between |
| ProtoLegal.LineLegal | Pieces.py:114-127 | a rook's, bishop's, queen's or knight's legal moves are its attack moves whose probes report no check |
| ProtoLegal.LegalKeeps | Pieces.py:39-97 | getLegalMoves leaves the board arranged as it was |
| ProtoLegal.Store | Pieces.py:97 | storing legalMoves changes only that piece's move list |
| ProtoLegal.Unflag | Board.py:187-188 | clearing canBePassanted changes only that flag |
| ProtoLegal.GetLegalMoves | Pieces.py:39-97 | getLegalMoves stores the legal moves in the piece's legalMoves |
| ProtoLegal.ListedMoves | Board.py:181-192 | each step of the loop leaves the piece's legal moves on it |
| ProtoLegal.AllLegalListed | Board.py:181-193 | every listed piece is one of the colour's pieces with a nonempty move list |
| ProtoLegal.ListAllComplete | Board.py:184-191 | for any per-piece step, a piece of the colour whose step, on the board the loop reaches it with, leaves a nonempty move list is listed with that list |
| ProtoLegal.AllLegalComplete | Board.py:181-193 | every piece of the colour on the copied list is reached with its probes runnable; its listed moves are getLegalMoves' result on that board, and it is listed whenever they are not empty |
| ProtoLegal.AllLegal | Board.py:181-193 | getAllLegalMovesStart keeps the pieces' layout, the move log, the turn and every hasMoved flag, and sets no canBePassanted flag |
| ProtoLegal.AllLegalUnflags | Board.py:181-192 | after getAllLegalMovesStart no piece of the colour can be taken en passant |
| ProtoBoard.Board.CheckForPieceOnSquare | Board.py:312-317 | the method returns the lookup's answer (see ProtoRules.FindFirst) |
| ProtoBoard.Board.CheckCapture | Board.py:293-304 | the method performs the capture (see ProtoRules.CaptureSpec) |
| ProtoBoard.Board.GetAttackedSquares | Board.py:306-310 | attackedSquares becomes the colour's attack moves, and nothing else changes |
| ProtoBoard.Board.AddAttacks | Board.py:309-310 | a piece's attack moves are appended to attackedSquares |
| ProtoBoard.Board.Attacked | Board.py:200-202 | the scan is true exactly when the square is in attackedSquares |
| ProtoBoard.Board.CheckKingUnderAttack | Board.py:194-204 | the method performs the king test (see ProtoRules.CheckKingIff) |
| ProtoBoard.Board.SimulateMoveForCheck | Board.py:255-268 | the method performs the probe (see ProtoRules.ProbeRestores), and the next probe can run |
| ProtoBoard.Board.PutBack | Board.py:260-262 | the taken entry goes back into pieces and leaves capturedPieces |
| ProtoBoard.Board.SimulateCastleForCheck | Board.py:269-291 | the method performs the castle probe (see ProtoRules.ProbeCastleRestores) |
| ProtoBoard.Board.Castle | Board.py:226-235 | the method performs the castle (see ProtoRules.CastleSpec) |
| ProtoBoard.Board.EnPassant | Board.py:237-246 | the pawn lands behind the enemy pawn and is marked, and the enemy entry is taken |
| ProtoBoard.Board.MovePiece | Board.py:206-224 | the method performs the move (see ProtoRules.MoveLogging) |
| ProtoBoard.Board.OrdinaryMove | Board.py:220-224 | the move is logged, the piece moved and marked, what it lands on taken, and the turn counted |

## Left out

- `engine/utils.h` is not part of this model. The bit macros it defines are modelled from their use in `main.c`, and its hard-coded magic numbers are parameters of the slider tables.
- Tables.SliderTables.InitSliderAttacks, together with InitSquare and InitStep, requires `Tables.AllWork`: every magic number it is given maps each relevant occupancy to an index that no other occupancy with different attacks shares. This is an assumption about the magic numbers in `utils.h`, whose values are not shown.
- Magic.FindMagicAccepts covers one candidate of `findMagicNumber` (main.c:598-635). The loop of 10^9 random draws and its final `return 0ULL` are not modelled; the generator itself is modelled by `Prng`.
- Engine.Board.MakeMove models the intended promotion: the pawn is removed from the target square. The code as written removes it from the source square (see Findings).
- Engine.Board.MakeMove returns the result of the inner full-move call in the captures-only branch. At main.c:939-940 that branch calls `makeMove(move, allMoves)` without returning its result, so the value the C function returns is undefined there.
- Engine.Board.Negamax and Engine.Board.NegamaxNode store the best move only at the root (ply 0). main.c:1986-1989 also stores it at deeper nodes, where the stored local is never written (see Findings).
- Engine.Board.Negamax is modelled only on positions whose search tree is finite (the `Search.NBounded` precondition, with a ghost fuel bound). The in-check extension at main.c:1916-1917 adds one ply when the side to move is in check, so a line of moves that keeps giving check would not let the depth fall; the C has no ply limit against that.
- Engine.Board.Quiescence is modelled only on positions whose capture tree is finite (the `Search.QBounded` precondition). The C recursion has no depth bound of its own.
- Engine.Board.KingInCheck and Engine.Board.KingLeftAttacked treat a side with no king as not attacked, and so do `State.LeavesKingAttacked` and `Search.InCheck`. In the C the king's square is `getLSBIndex` of an empty board, which `utils.h` defines and which is not part of this model.
- Moves.MoveList.Add requires `count < 256`. Engine.Board.GenerateMoves and Engine.Board.SortedMoves require that the generated list has at most 256 moves, and `Search.QBounded`, `Search.NBounded` and `Search.PerftBounded` require this of every node. The C's `moves[256]` array has no bound check, and writing past it is undefined behaviour.
- Engine.Board.SortMoves states that the list becomes a permutation of itself in non-increasing score order. It does not state which order the exchange sort leaves moves of equal score in.
- Engine.Board.Quiescence and Engine.Board.Negamax state only that the `nodes` counter grows; its exact value is not related to the tree they search. The perft methods state it exactly (`Search.PerftCount`).
- `searchPosition` and its printing, the timing and printing of `perftTest`, `parseFEN`, `parseMove`, the UCI loop, the board printers, `init_all` and `main` are input/output and set-up code and are not modelled.
- ProtoLegal.ProbeAll and the legal-move rules model the Python probing loops as functions on values, not as methods that mutate the board.
- ProtoRules.CanAttack requires a pawn to have a row ahead of it, and so do `ProtoRules.Armed`, `ProtoRules.Guarded`, `ProtoRules.Movable` and `ProtoLegal.Ready`, which build on it. The prototype has no promotion, and a pawn on its last row makes the Python raise `IndexError`: `moves[0]` at Pieces.py:57 in `getLegalMoves` and `straights[...][self.color][0]` at Pieces.py:101 in `getAttackMoves`. The model does not model that crash; a probe made while an enemy pawn stands on its last row counts as a check.
- ProtoLegal.MoveProbe and ProtoLegal.CastleProbe are total: a probe that cannot run counts as a check. Where the Python raises `KeyError` because the king's entry is missing, the model requires the king instead (`ProtoRules.Guarded`, `ProtoRules.Movable`).
- The Python `Board` constructor and the starting set-up, numpy, `MappingProxyType`, `undoMove` (an empty method), `main.py` and `getLegalMovesForPiece` are not modelled.

## Findings

| source | as written | input that shows it | evidently intended | confidence | as-written member | corrected member |
|---|---|---|---|---|---|---|
| engine/main.c:860 | on promotion the pawn is popped from the source square, which main.c:843 already cleared, so the pawn stays on the target beside the promoted piece | a white pawn on a7 promoting to a queen on a8 leaves both a white pawn and a white queen on a8 | the pawn is popped from the target square and only the promoted piece remains | not executed | State.PromotionLeavesPawn | State.PromotionReplacesPawn |
| engine/main.c:1986-1989 | every node whose alpha rose stores `bestMoveSoFar` into the global `bestMove`; off the root that local (main.c:1921) is never written, so an indeterminate value is stored | a depth-2 search from the starting position: the ply-1 node raises alpha above its initial bound and stores its unwritten local | only the root stores its best move | not executed | Search.OffRootStoresUnset | Search.StoreAtRootSpec |
