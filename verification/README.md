# uasat in Dafny

A model of the deterministic core of **uasat**, a calculator for universal
algebra that encodes finite structures as vectors of Boolean values and
hands the resulting formulas to a SAT solver. Every part of the calculator
is generic over a Boolean algebra `LOGIC`; here that parameter is fixed to
the two-element algebra of native `bool` values (`Logic`, `Boolean`,
`TwoElementAlg`), which makes the bit-level logic executable and provable.
The SAT back ends are not modelled.

The model follows the source file by file:

- **Packed bit vectors.** `BitVec` of `src/core/bitvec.rs`
  (`CoreBitVec`), of `src/genvec/bitvec.rs` with its `BitSlice`
  (`GenVecBitVec`), the older mask-based `BitVec` of `src/bitvec.rs`
  (`OldBitVec`), `Bits` of `src/array.rs` (`BitsArray`) and `Packed` of
  `src/array2/packed.rs` (`PackedArray`). Each is a class whose methods
  update its length and word store in place; its contents are the first
  `len` bits, read least significant bit first from the words, and every
  method is proved against that sequence.
- **Generic vectors.** The default `concat`, `split` and `from_elem` and the
  length-only `UnitVec` with its iterator (`GenericVector`, for
  `src/core/genvec.rs`, `src/genvec/traits.rs` and `src/genvec/unitvec.rs`).
- **Tensors.** `Shape` index arithmetic, the stride iterator, and the
  tensor constructors, `polymer`, pointwise operations and first-dimension
  folds of `src/core/tensor.rs` (`Tensors`, `Radix`).
- **Boolean logic.** The default methods, folds and comparators of
  `BooleanLogic` in `src/core/boolean.rs` (`BoolLogic`), the ±1 encoding and
  `BitLogic` of `src/core2/solver.rs` (`Core2Solver`), and the ripple-carry
  binary numbers of `src/binary.rs` (`Binary`, over the bit-level facts of
  `BitSpec` and `Arith`).
- **Finite domains.** One-hot small sets (`SmallSets`), the one-bit Boolean
  domain (`BooleanDomain`, `Core2Boolean`), mixed-radix powers (`Powers`),
  products (`Products`), operations and functions with `polymer`
  (`Functions`), Lehmer codes of permutations and even permutations
  (`Permutations`), the diagonal and singleton relations (`Relations`) and
  the binary relations of `src/math/binrel.rs` (`BinaryRelations`).
- **Small structures.** `ModuloInt`, `AntiChain` and `Product` of
  `src/structure.rs` (`Structure`), the algebras of `src/alg/`
  (`Algebras`) and the signatures of `src/math/algebra.rs` (`Signatures`).
- **Text front ends.** The two lexers with line and column tracking
  (`Lexers`, `OldLexers`, over `Scanning`) and the parser combinators of
  `src/parser.rs` (`Parsers`), whose defining rule is that a failed parse
  leaves the cursor where it was.

Several files of the repository carry the same code; each such piece is
modelled once:

- `src/genvec/bitvec.rs` repeats the `BitVec` of `src/core/bitvec.rs`; only
  its equality and `BitSlice` are modelled separately.
- `src/adt/power.rs` repeats the `Power` of `src/alg/power.rs`.
- `src/alg/small_set.rs`, `src/adt/small_set.rs` and `src/alg/fixed_set.rs`
  share the one-hot loops of `SmallSets`.
- `UnitVec` of `src/genvec/unitvec.rs` is the one of `src/core/genvec.rs`.
- The `BoolAlg` defaults of `src/boolean.rs` and `src/boolalg.rs` (`and`,
  `equ`, `leq`, `ad3`, `maj`, `all`, `any`, `one`) are the `BooleanLogic`
  defaults of `src/core/boolean.rs`, and the `Boolean` instances are the
  `Logic` instance: `BoolLogic` models them once. The `Logic` defaults of
  `src/structure.rs:26-44` (`and` as `not(or(not a, not b))`, `imp` as
  `or(not a, b)`, `iff` as `xor(not a, b)`) are the same three formulas:
  `BoolLogic.DefaultAnd`, `BoolLogic.DefaultImp` and `BoolLogic.DefaultEqu`. The `bit_*`, `concat` and
  `num_lift` of `src/boolvec.rs` are those of `src/binary.rs`.
- `BooleanLogic` of `src/alg/boolean_logic.rs` is `TwoElementAlg` of
  `src/alg/two_element_alg.rs`.
- The `polymer` loop of `src/alg/functions.rs` is that of
  `src/alg/power.rs` and `src/alg/operations.rs`; `Functions.Polymer` has
  the empty-domain guard of `src/alg/operations.rs`.

An `assert!` or `assert_eq!` of the source is a precondition where the
caller is expected to meet it, and an error value (`None` or `Err`) where
the source reports the failure to its caller; a panic that a finding below
exhibits is modelled as `None` in the as-written member.

## Model

| member | source | states |
|---|---|---|
| `Signatures.Signature.OpCount` | src/math/algebra.rs:31-33 | the number of operations is the length of the arity list |
| `Signatures.Signature.OpArity` | src/math/algebra.rs:35-37 | the arity of an existing operation is its entry in the list |
| `Signatures.Signature.OpAdd` | src/math/algebra.rs:25-29 | appends the arity, returns the old count as the new operation's id, and keeps the arities of all earlier operations |
| `Signatures.SignatureExample` | src/math/algebra.rs:20-38 | operations added with arities 2, 1, 0 get ids 0, 1, 2 and keep their arities |
| `Scanning.DigitValue` | src/lexer.rs:88-102 | the value of a decimal digit is below 10 |
| `Scanning.RunEnd` | src/old/lexer.rs:85-95 | the end of the longest run of a character class from an offset: every character before it is in the class and the one at it is not, or the text ends |
| `Scanning.PosAfter` | src/lexer.rs:63-71 | positions start at line 1, column 1 and are at least 1 |
| `Scanning.PosAfterNext` | src/lexer.rs:63-71 | consuming one more character steps the position over that character |
| `Scanning.PosAfterNoNewline` | src/lexer.rs:63-71 | on one line the column grows by the number of characters read |
| `Scanning.PosAfterNewline` | src/lexer.rs:63-71 | a newline moves to column 1 of the next line |
| `Scanning.RunEndUnique` | src/old/lexer.rs:85-95 | a run of class characters that cannot be extended ends exactly where `RunEnd` says, so the run a read loop stops at is determined by the text |
| `Lexers.CheckedMul` | src/lexer.rs:78-86 | `checked_mul` succeeds exactly when the product fits in a `u32`, and then yields it |
| `Lexers.CheckedAdd` | src/lexer.rs:78-86 | `checked_add` succeeds exactly when the sum fits in a `u32`, and then yields it |
| `Lexers.AddDigit` | src/lexer.rs:78-86 | yields `10n + d` exactly when that fits in a `u32`, and `None` otherwise |
| `Lexers.DecimalPrefix` | src/lexer.rs:88-102 | a prefix of a digit run has a value no larger than the whole run, so an overflow part-way means the whole number overflows |
| `Lexers.DecimalNext` | src/lexer.rs:88-102 | reading one more digit multiplies the value by ten and adds the digit |
| `Lexers.Lexer.constructor` | src/lexer.rs:55-61 | the lexer starts at the first character, at line 1, column 1 |
| `Lexers.Lexer.ReadChar` | src/lexer.rs:63-71 | moving past `next` keeps the position in step with the consumed text |
| `Lexers.Lexer.EatWhitespace` | src/lexer.rs:63-71 | a newline moves to the next line and column 1; any other blank moves one column right |
| `Lexers.Lexer.GetError` | src/lexer.rs:73-76 | yields the error message and clears `next`, so the stream ends |
| `Lexers.Lexer.GetInteger` | src/lexer.rs:88-102 | reads the maximal digit run; yields its value when below `2^32` and stops after it, otherwise yields `too large integer` and ends the stream |
| `Lexers.Lexer.GetIdentifier` | src/lexer.rs:104-116 | reads exactly the maximal alphanumeric run and yields it as the identifier |
| `Lexers.Lexer.GetOperator` | src/lexer.rs:118-123 | consumes the one operator character and yields it |
| `Lexers.Lexer.Next` | src/lexer.rs:129-145 | skips the blank run; at the end yields `None`; otherwise yields the position of the first other character with the item read there (identifier, integer, operator or error); after an error or the end it yields `None` without change |
| `Lexers.SingleLine` | src/lexer.rs:63-71 | on a text without newlines the character at offset `k` is at line 1, column `k + 1` |
| `Lexers.ReadsItemUnique` | src/lexer.rs:129-145 | the item read at an offset is determined by the text |
| `Lexers.NextItem` | src/lexer.rs:129-145 | a `next` at a readable item yields exactly that item with its position |
| `Lexers.LexerExample` | src/lexer.rs:129-145 | `x1 = 7` lexes to `x1` at column 1, `=` at column 4 and `7` at column 6, then `None` |
| `Lexers.DecimalSnoc` | src/lexer.rs:88-102 | appending a digit multiplies the value by ten and adds the digit |
| `Lexers.DecimalLimit` | src/lexer.rs:78-86 | `4294967295` is `2^32 - 1` and `4294967296` is `2^32` |
| `Lexers.OverflowExample` | src/lexer.rs:88-102 | `4294967295` is an integer item, `4294967296` yields `too large integer`, and the stream then ends |
| `Lexers.Lexer.ReadDigit` | src/lexer.rs:90-99 | one digit step of `get_integer`: either the value read so far plus this digit stays below `2^32` and the lexer moves one character on, or the whole digit run's value is at least `2^32` and nothing moves |
| `Lexers.Lexer.ReadItem` | src/lexer.rs:132-142 | at a character that is not blank, reads the item that the text determines there: an identifier run, an integer below `2^32` (or the overflow error, which stops the stream), an operator, or `unexpected character`, which stops the stream |
| `OldLexers.ScanAt` | src/old/lexer.rs:107-146 | the token at a non-blank character is non-empty; it is an identifier exactly when it starts with a letter or `_` (then a maximal run of alphanumerics and `_`), an integer exactly when it starts with a digit (then a maximal digit run), an operator of `()[],=`, or else one `Unknown` character |
| `OldLexers.TokensStep` | src/old/lexer.rs:107-146 | the token list after an offset is empty exactly when only blanks remain, and otherwise starts with the token after the blanks |
| `OldLexers.NonBlank` | src/old/lexer.rs:107-146 | the text with its blanks removed holds no blank |
| `OldLexers.NonBlankExact` | src/old/lexer.rs:107-146 | removing blanks deletes an all-blank string and keeps a blank-free one |
| `OldLexers.TokenNotBlank` | src/old/lexer.rs:107-146 | no token contains a blank |
| `OldLexers.BlanksThenToken` | src/old/lexer.rs:107-146 | the non-blank rest of the text is the next token followed by the non-blank text after it |
| `OldLexers.TokensKeepText` | src/old/lexer.rs:107-146 | the tokens, concatenated, are exactly the text with its white space removed: lexing drops nothing else |
| `OldLexers.Lexer.constructor` | src/old/lexer.rs:54-68 | the lexer starts at the first character, at line 1, column 1 |
| `OldLexers.Lexer.ReadChar` | src/old/lexer.rs:71-83 | moves one character on; the column advances only when another character follows |
| `OldLexers.Lexer.GetRange` | src/old/lexer.rs:85-95 | consumes the maximal run of the class and returns exactly the slice it consumed |
| `OldLexers.Lexer.GetSingle` | src/old/lexer.rs:97-101 | consumes one character and returns the one-character slice |
| `OldLexers.Lexer.Next` | src/old/lexer.rs:107-146 | skips blanks (a newline starting the next line); yields `None` exactly when no token remains, and then again forever; otherwise the token's data is the slice `text[k..offset]` with `offset > k`, its kind is that of the token at `k`, its line and column are those of `k`, and the remaining tokens are the rest of the list |
| `OldLexers.NextToken` | src/old/lexer.rs:107-146 | a `next` with a token ahead yields exactly that token |
| `OldLexers.ExamplePositions` | src/old/lexer.rs:155-190 | in `ab\n ,12` the tokens start at (1,1), (2,2) and (2,3) |
| `OldLexers.ExampleScans` | src/old/lexer.rs:155-190 | in `ab\n ,12` the tokens are `ab`, `,` and `12` |
| `OldLexers.LexerExample` | src/old/lexer.rs:155-190 | `ab\n ,12` lexes to identifier `ab` at (1,1), operator `,` at (2,2), integer `12` at (2,3), then `None` |
| `OldLexers.Lexer.ReadToken` | src/old/lexer.rs:109-129 | at a non-blank character, reads the token that starts there: it ends at the end of that token, carries exactly the consumed slice and that token's kind, and the line and column where it started |
| `OldLexers.Lexer.SkipBlank` | src/old/lexer.rs:130-135 | moves past one blank character and keeps the lexer's position consistent with the consumed text |
| `Parsers.Run` | src/parser.rs:24-155 | every parser leaves the text unchanged on error and a suffix of it on success |
| `Parsers.TagParses` | src/parser.rs:54-65 | a tag succeeds exactly when the text starts with it, consumes just the tag and yields it; otherwise fails with its message at the cursor |
| `Parsers.PairParses` | src/parser.rs:71-86 | a pair succeeds exactly when the first parser and then the second (on the rest) succeed, yielding both values; on failure it yields the first error and restores the text |
| `Parsers.MapParses` | src/parser.rs:106-122 | `Map` succeeds exactly when its parser and `fun` succeed, yielding `fun`'s result; when it fails the text is restored |
| `Parsers.OptNeverFails` | src/parser.rs:149-154 | `Opt` never fails; it yields `Some` exactly when its parser succeeds, and otherwise `None` with the text unchanged |
| `Parsers.PairAssociative` | src/parser.rs:71-86 | pairing is associative: both groupings accept the same texts, leave the same rest, fail with the same error, and yield regrouped values |
| `Parsers.Parse` | src/parser.rs:24-155 | `parse` yields what `Run` does and moves the cursor to `Run`'s rest |
| `Parsers.ParserExample` | src/parser.rs:161-177 | on `212`: tag `1` fails at 3 left, tag `2` yields `2` with 2 left, the pair `1,1` fails at 1 left and restores 2, the pair `1,2` yields both with 0 left |
| `Parsers.MapExample` | src/parser.rs:179-181 | on `12`, tag `1` mapped to `true` yields `true` and moves past the `1` |
| `Relations.GeomSumClosed` | src/alg/relations.rs:28-50 | `(size - 1)` times the stride sum, plus one, is `size^n`, so the stride divides the last position |
| `Relations.Stride` | src/alg/relations.rs:28-50 | the stride is the position of the tuple `(1, …, 1)` |
| `Relations.GeomSumPositive` | src/alg/relations.rs:28-50 | with at least one coordinate the stride is at least 1 |
| `Relations.DotConstant` | src/alg/relations.rs:28-50 | the constant tuple `(d, …, d)` sits at `d` times the stride |
| `Relations.Constant` | src/alg/relations.rs:28-50 | the constant tuple has `n` coordinates, all equal to `d` |
| `Relations.OnDiagonalIffConstant` | src/alg/relations.rs:28-50 | a position is a multiple `d * stride` with `d < size` exactly when it is the position of a constant tuple |
| `Relations.DiagonalLastIndex` | src/alg/relations.rs:28-50 | the last position the loop sets is `num_bits - 1`, as the `debug_assert` claims |
| `Relations.DiagonalPrefix` | src/alg/relations.rs:28-50 | after `j` turns the vector has its length and exactly the bits `i * stride` for `i < j` set |
| `Relations.DiagonalStep` | src/alg/relations.rs:28-50 | one more turn sets exactly the bit `j * stride` |
| `Relations.DiagonalInRange` | src/alg/relations.rs:28-50 | every position the loop sets is inside the vector |
| `Relations.GetDiagonal` | src/alg/relations.rs:28-50 | asserts arity ≥ 1; the result has `size^arity` bits, and bit `k` is set exactly when `k` is the position of a constant tuple |
| `Relations.IsDiagonal` | src/alg/relations.rs:52-55 | true exactly when the element equals the diagonal bit for bit |
| `Relations.UniformCons` | src/alg/relations.rs:57-72 | the radices of a relation's coordinates are all `size` |
| `Relations.GetSingleton` | src/alg/relations.rs:57-72 | asserts one index per coordinate; the result has `size^arity` bits with exactly one set, at the position of the tuple with the first coordinate least significant |
| `Relations.IsSingleton` | src/alg/relations.rs:74-77 | asserts arity 1; true exactly when exactly one bit is set |
| `Relations.PosBound` | src/adt/relation.rs:73-87 | the pairs of the first `n` rows sit below `n * size` |
| `Relations.DiagonalRowsHolds` | src/adt/relation.rs:73-87 | after `i` rows the bit of the pair `(a, b)` is `a == b` |
| `Relations.Diagonal` | src/adt/relation.rs:73-87 | a binary relation with `size * size` bits in which the pair `(i, j)` holds exactly when `i == j` |
| `Relations.IsReflexive` | src/adt/relation.rs:53-66 | asserts arity 2; true exactly when every pair `(i, i)` holds, which is true for the empty domain |
| `Relations.DiagonalStepPos` | src/adt/relation.rs:53-66 | the pair `(i, i)` sits at `i * (size + 1)`, and the next one `size + 1` further |
| `Relations.DiagonalIsReflexive` | src/adt/relation.rs:53-87 | the diagonal of every domain, the empty one included, is reflexive |
| `BinaryRelations.Row` | src/math/binrel.rs:78-82 | row `i` is a vector over the second set whose entry `j` says whether `i` is related to `j` |
| `BinaryRelations.RelExtensional` | src/math/binrel.rs:219-223 | two relations of one shape that relate the same pairs are the same tensor |
| `BinaryRelations.CrownLeqIsPartialOrder` | src/math/binrel.rs:24-35 | the crown order is reflexive, antisymmetric and transitive |
| `BinaryRelations.CrownPoset` | src/math/binrel.rs:24-35 | asserts an even size of at least 4; a `size` by `size` relation in which `(i, j)` holds exactly when `i` is below `j` in the crown |
| `BinaryRelations.CreatedPairs` | src/math/binrel.rs:38-40 | the coordinate tuples of a `[a, b]` relation are exactly the pairs |
| `BinaryRelations.Diagonal` | src/math/binrel.rs:38-40 | a square relation in which `(i, j)` holds exactly when `i == j` |
| `BinaryRelations.LessThan` | src/math/binrel.rs:43-45 | a square relation in which `(i, j)` holds exactly when `i < j` |
| `BinaryRelations.Singleton` | src/math/binrel.rs:49-53 | a square relation in which exactly the pair `pos` holds |
| `BinaryRelations.PartialMap` | src/math/binrel.rs:56-59 | a relation from the domain to `target` elements in which `i` is related to `j` exactly when `mapping[i] == j` |
| `BinaryRelations.Column` | src/math/binrel.rs:87-90 | column `j` says for each `i` whether `i` is related to `j` |
| `BinaryRelations.FiberIsColumn` | src/math/binrel.rs:87-90 | the run a first-dimension fold reduces at `[j]` is column `j` |
| `BinaryRelations.Entries` | src/math/binrel.rs:87-90 | the entries of a vector, in order |
| `BinaryRelations.FoldColumns` | src/math/binrel.rs:87-90 | a first-dimension fold of a relation yields a vector whose entry `j` is the fold of column `j` |
| `BinaryRelations.FoldVector` | src/math/binrel.rs:78-82 | a fold of a vector yields the truth value of the fold of its entries |
| `BinaryRelations.AllPairs` | src/math/binrel.rs:119-123 | two `all` folds are true exactly when every pair of the relation holds |
| `BinaryRelations.Not` | src/math/binrel.rs:194-203 | a relation of the same shape holding exactly the missing pairs |
| `BinaryRelations.Combine` | src/math/binrel.rs:119-123 | a relation of the same shape whose pair is the operation applied to the two pairs |
| `BinaryRelations.And` | src/math/binrel.rs:174-180 | the conjunction of two truth values |
| `BinaryRelations.Transpose` | src/math/binrel.rs:143-147 | a `[b, a]` relation in which `j` is related to `i` exactly when `i` is related to `j` |
| `BinaryRelations.Compose` | src/math/binrel.rs:105-115 | asserts matching middle sets; `i` is related to `k` exactly when some `j` has `(i, j)` in the first and `(j, k)` in the second relation |
| `BinaryRelations.ComposeFiber` | src/math/binrel.rs:105-115 | the run folded at `[i, k]` holds, for each middle `j`, the conjunction of `(i, j)` and `(j, k)` |
| `BinaryRelations.IsFunction` | src/math/binrel.rs:78-82 | true exactly when every row has exactly one related element |
| `BinaryRelations.IsSurjective` | src/math/binrel.rs:87-90 | true exactly when every element of the second set is related to by some element |
| `BinaryRelations.IsReflexive` | src/math/binrel.rs:94-100 | asserts a square relation; true exactly when every `(i, i)` holds |
| `BinaryRelations.IsSubsetOf` | src/math/binrel.rs:119-123 | true exactly when every pair of the first relation is a pair of the second |
| `BinaryRelations.IsEqualTo` | src/math/binrel.rs:219-223 | true exactly when the two relations are equal |
| `BinaryRelations.IsNotEqualTo` | src/math/binrel.rs:227-230 | true exactly when the two relations differ |
| `BinaryRelations.IsProperSubsetOf` | src/math/binrel.rs:128-132 | true exactly when the first is a subset of the second and they differ |
| `BinaryRelations.IsTransitive` | src/math/binrel.rs:136-139 | true exactly when the relation is transitive |
| `BinaryRelations.IsSymmetric` | src/math/binrel.rs:151-156 | true exactly when the relation is symmetric |
| `BinaryRelations.IsAntisymmetric` | src/math/binrel.rs:160-170 | true exactly when no two distinct elements are related both ways |
| `BinaryRelations.IsPartialOrder` | src/math/binrel.rs:174-180 | true exactly when the relation is reflexive, transitive and antisymmetric |
| `BinaryRelations.IsEquivalence` | src/math/binrel.rs:184-190 | true exactly when the relation is reflexive, transitive and symmetric |
| `BinaryRelations.Covers` | src/math/binrel.rs:194-203 | `(i, j)` is in the result exactly when it is a non-diagonal pair of the relation that is not the composition of two non-diagonal pairs |
| `BinaryRelations.IsCompatible` | src/math/binrel.rs:208-215 | true exactly when the function maps every related pair of the first relation to a related pair of the second |
| `BinaryRelations.AscendingDistinct` | src/math/binrel.rs:62-72 | an ascending list of pairs has no repeated pair |
| `BinaryRelations.AscendingAppend` | src/math/binrel.rs:62-72 | two ascending lists, the first before the second, join to an ascending list |
| `BinaryRelations.RowEdgesFacts` | src/math/binrel.rs:62-72 | the edges of row `i` below column `j` are exactly its true pairs there, in ascending order |
| `BinaryRelations.EdgesBeforeFacts` | src/math/binrel.rs:62-72 | the edges of the first `i` rows are exactly their true pairs, in ascending order |
| `BinaryRelations.Edges` | src/math/binrel.rs:62-72 | lists exactly the pairs of the relation, each once, in row-major order |
| `BinaryRelations.CrownIsPartialOrder` | src/math/binrel.rs:24-35 | `is_partial_order` of the crown is true |
| `BinaryRelations.DiagonalIsEquivalenceAndOrder` | src/math/binrel.rs:38-40 | the diagonal is both an equivalence and a partial order |
| `BinaryRelations.LessThanIsStrict` | src/math/binrel.rs:43-45 | on a non-empty set `less_than` is transitive and antisymmetric and not reflexive |
| `BinaryRelations.CoversOfLessThan` | src/math/binrel.rs:194-203 | the covers of `less_than` are exactly the pairs `(i, i + 1)` |
| `BinaryRelations.SingletonEdges` | src/math/binrel.rs:49-53 | the edge list of `singleton` is its one pair |
| `BinaryRelations.PartialMapIsFunction` | src/math/binrel.rs:56-59 | `partial_map` is a function exactly when every entry is a valid target |
| `Tensors.Shape.IsRectangular` | src/core/tensor.rs:52-54 | true exactly when every dimension is `dim`, and then the volume is `dim^rank` |
| `Tensors.Shape.Split1` | src/core/tensor.rs:58-61 | rank ≥ 1; the head dimension followed by the rest is the shape, and the volume is their product |
| `Tensors.Shape.Split2` | src/core/tensor.rs:65-72 | rank ≥ 2; the two head dimensions followed by the rest is the shape, and the volume is their product |
| `Tensors.Shape.Join` | src/core/tensor.rs:76-81 | the prefix goes in front, and the volumes multiply |
| `Tensors.Shape.Size` | src/core/tensor.rs:84-90 | the number of elements, the product of the dimensions, zero exactly when some dimension is zero |
| `Tensors.Shape.Index` | src/core/tensor.rs:93-103 | asserts one coordinate per dimension, each below it; the linear position, below the volume, from which the coordinates are recovered |
| `Tensors.Shape.Strides` | src/core/tensor.rs:106-116 | stride `i` is the product of the dimensions before `i` |
| `Tensors.Split2GuardAsWritten` | src/core/tensor.rs:65-72 | the guard `!len >= 2` holds for every rank up to `usize::MAX - 2` |
| `Tensors.Split2GuardAcceptsLowRanks` | src/core/tensor.rs:65-72 | the guard as written lets ranks 0 and 1 through |
| `Tensors.StrideIter.constructor` | src/core/tensor.rs:136-152 | coordinates and strides start at 0, and the iterator is done at once exactly when the volume is 0 |
| `Tensors.StrideIter.AddStride` | src/core/tensor.rs:154-156 | adds the stride to dimension `idx` and changes nothing else |
| `Tensors.StrideIter.Next` | src/core/tensor.rs:159-181 | yields, for the `count`-th tuple in linear order, the sum of each coordinate times its stride; after the last tuple it is done and yields `None` |
| `Tensors.Carry` | src/core/tensor.rs:159-181 | the carry loop advances the coordinates to the next tuple in linear order, keeping the index in step, and wraps to zeros after the last tuple |
| `Tensors.CarryOver` | src/core/tensor.rs:159-181 | a coordinate that reaches its dimension wraps to 0 and the index drops by its stride times the dimension |
| `Tensors.CarryStop` | src/core/tensor.rs:159-181 | a coordinate that stays below its dimension gives the next tuple in linear order |
| `Tensors.CarryEnd` | src/core/tensor.rs:159-181 | when every coordinate wraps, the tuple was the last and the next is all zeros |
| `Tensors.Tensor.VerySlowGet` | src/core/tensor.rs:233-235 | the element at the coordinates |
| `Tensors.Tensor.VerySlowSet` | src/core/tensor.rs:238-240 | the element at the coordinates becomes `elem`, and every other element stays |
| `Tensors.Tensor.Scalar` | src/core/tensor.rs:243-247 | the only element of a tensor of shape `[]` |
| `Tensors.Gather` | src/core/tensor.rs:253-265 | entry `k` of the gathered tuple is coordinate `mapping[k]` |
| `Tensors.MappedStrides` | src/core/tensor.rs:253-265 | the strides after the `add_stride` calls have one entry per new dimension |
| `Tensors.MappedStridesDot` | src/core/tensor.rs:253-265 | summing new coordinates with the moved strides sums the gathered coordinates with the old strides |
| `Tensors.Create` | src/core/tensor.rs:209-230 | a well-formed tensor of the shape whose element at every tuple is `op` of that tuple |
| `Tensors.Advance` | src/core/tensor.rs:209-230 | the coordinate loop of `create` steps to the next tuple in linear order and wraps to zeros after the last |
| `Tensors.Polymer` | src/core/tensor.rs:253-265 | asserts one mapping entry per old dimension and matching dimensions; the element at new coordinates `c` is the old element at `c[mapping[0]], c[mapping[1]], …` |
| `Tensors.MappedIter` | src/core/tensor.rs:253-265 | the iterator starts at count 0 with the old strides moved along the mapping |
| `Tensors.PolymerCollect` | src/core/tensor.rs:253-265 | the collected elements are, in linear order of the new shape, the old elements at the gathered coordinates |
| `Tensors.CollectedAppend` | src/core/tensor.rs:253-265 | appending the element of the next tuple keeps the collected prefix correct |
| `Tensors.PolymerIndex` | src/core/tensor.rs:253-265 | the moved strides send new coordinates to the linear position of the gathered old coordinates |
| `Tensors.Reshape` | src/core/tensor.rs:269-271 | asserts equal sizes; every element keeps its linear position |
| `Tensors.MapNot` | src/core/tensor.rs:375-378 | the same shape, every element negated |
| `Tensors.Map2` | src/core/tensor.rs:380-433 | asserts equal shapes; the same shape, the operation applied at every tuple |
| `Tensors.Fold` | src/core/tensor.rs:435-488 | the logic's fold of a sequence of bits |
| `Tensors.Fiber` | src/core/tensor.rs:435-488 | the run along the first dimension has `dims[0]` elements |
| `Tensors.FiberChunk` | src/core/tensor.rs:435-488 | the run at `c` is the chunk of `dims[0]` elements at the linear position of `c` in the remaining shape |
| `Tensors.FoldFirst` | src/core/tensor.rs:435-488 | drops the first dimension; the element at `c` is the fold of the elements at `[i] + c` |
| `Radix.PlaceValues` | src/core/tensor.rs:106-116 | place value `i` is the product of the radices before `i` |
| `Radix.Unrank` | src/core/tensor.rs:93-103 | every number below the volume stands for a valid tuple whose linear index is that number |
| `Radix.DotBound` | src/core/tensor.rs:93-103 | a valid tuple's linear index is below the volume |
| `Radix.ProdZero` | src/core/tensor.rs:84-90 | the volume is zero exactly when some radix is zero |
| `Radix.DotDecode` | src/core/tensor.rs:93-103 | decoding a number below the volume and summing the digits gives the number back |
| `Radix.DecodeDot` | src/core/tensor.rs:93-103 | summing a valid tuple and decoding gives the tuple back |
| `Radix.LinearInjective` | src/core/tensor.rs:93-103 | two valid tuples with the same linear index are equal |
| `Radix.UnrankLinear` | src/core/tensor.rs:93-103 | `Unrank` inverts the linear index on valid tuples |
| `Radix.ProdUniform` | src/core/tensor.rs:52-54 | with every radix `n` the volume is `n` to the rank |
| `Permutations.FactTwo` | src/alg/permutations.rs:278-284 | the factorial is 2 only at 2 |
| `Permutations.FactEven` | src/alg/permutations.rs:278-284 | factorials from 2 on are even, so `n!/2` is whole |
| `Permutations.LehmerDigits` | src/alg/permutations.rs:112-140 | `n` factorial-base digits, digit `i` below `n - i`, most significant first |
| `Permutations.LehmerDigitsValid` | src/alg/permutations.rs:112-140 | the digits of every number below `n!` are valid |
| `Permutations.RankDigits` | src/alg/permutations.rs:142-164 | the first `i` digits of `k` read back give `k / (n - i)!`, and all of them give `k` |
| `Permutations.RankOfLehmer` | src/alg/permutations.rs:142-164 | reading back the digits of `k` gives `k` |
| `Permutations.UnusedMark` | src/alg/permutations.rs:112-140 | marking an unused column removes it from the unused counts past it |
| `Permutations.SelectSpec` | src/alg/permutations.rs:112-140 | with more than `r` unused columns the scan stops at an unused column with exactly `r` unused before it |
| `Permutations.Cols` | src/alg/permutations.rs:112-140 | row `i` takes the unused column its digit names |
| `Permutations.ColsInjective` | src/alg/permutations.rs:112-140 | valid digits choose distinct columns, and `n - i` columns stay unused after `i` rows |
| `Permutations.ColsPermutation` | src/alg/permutations.rs:112-140 | the columns of all `n` rows form a permutation of `0..n` |
| `Permutations.Matrix` | src/alg/permutations.rs:112-140 | an `n` by `n` bit matrix whose row `i` holds `true` exactly at column `cols[i]` |
| `Permutations.MatrixExt` | src/alg/permutations.rs:112-140 | two `n` by `n` matrices that agree at every row and column are equal |
| `Permutations.ElemIsPermutation` | src/alg/permutations.rs:112-140 | the matrix of valid digits has exactly one `true` in each row and each column |
| `Permutations.ElemZeroIsIdentity` | src/alg/permutations.rs:112-140 | number 0 is the identity permutation |
| `Permutations.IndexOfDigits` | src/alg/permutations.rs:142-164 | reading back the matrix of valid digits gives, row by row, the rank of the digits and the columns taken |
| `Permutations.RowOfDigits` | src/alg/permutations.rs:142-164 | row `l` of that matrix marks exactly one unused column, the one digit `l` selects |
| `Permutations.IndexOfElem` | src/alg/permutations.rs:112-164 | reading back the matrix of any valid digit sequence gives its rank |
| `Permutations.SymmetricSize` | src/alg/permutations.rs:104-110 | the size of the symmetric group is `n!` |
| `Permutations.TakeUnused` | src/alg/permutations.rs:112-140 | the inner loop of `get_elem` stops at the unused column with `r` unused columns before it |
| `Permutations.PlaceRow` | src/alg/permutations.rs:112-140 | placing row `i` marks the column its digit selects and sets exactly that bit |
| `Permutations.GetElem` | src/alg/permutations.rs:112-140 | asserts `index < n!`; the permutation matrix of the Lehmer digits of `index` |
| `Permutations.GetIndex` | src/alg/permutations.rs:142-164 | asserts `r < n - i` on each row; reads the Lehmer number of a permutation matrix |
| `Permutations.ScanRow` | src/alg/permutations.rs:142-164 | one row of `get_index`: scales by `n - i` and adds the count of unused columns before the marked one, failing where the bound check fails |
| `Permutations.SymmetricRoundTrip` | src/alg/permutations.rs:112-164 | for every `k < n!`, `get_elem(k)` is a permutation matrix and `get_index` of it is `k` |
| `Permutations.SelectAt` | src/alg/permutations.rs:112-140 | the column scan from `j` stops at an unused column `s` exactly when `r` unused columns lie between `j` and `s` |
| `Permutations.LaterSmaller` | src/alg/permutations.rs:112-164 | in a permutation, the unused columns smaller than the column of row `i` are the columns of later rows that are smaller than it |
| `Permutations.DigitCountsLater` | src/alg/permutations.rs:112-140 | digit `i` of valid digits counts the later rows whose columns are smaller than the column `get_elem` gives row `i` |
| `Permutations.LehmerCodeSpec` | src/alg/permutations.rs:112-164 | the Lehmer code of any permutation is a valid digit sequence; `get_elem` of it places the permutation's own columns, and its digit sum is the permutation's number of inversions |
| `Permutations.RankInjective` | src/alg/permutations.rs:142-164 | valid digit sequences of the same rank are equal, so `get_index` tells distinct permutations apart |
| `Permutations.RankBound` | src/alg/permutations.rs:142-164 | valid digits rank below `n!`, so `get_index` of a permutation matrix is a valid index |
| `Permutations.SymmetricElemOfIndex` | src/core2/traits.rs:80-84 | for every permutation matrix, `get_index` gives some `k < n!` and `get_elem(k)` is that matrix, the other half of the bijection |
| `Permutations.AlternatingSize` | src/alg/permutations.rs:278-284 | the size of the alternating group is 1 below `n = 2` and `n!/2` from then on |
| `Permutations.AltDigits` | src/alg/permutations.rs:286-319 | the digits of `2k` with the parity bit added in the second-to-last place |
| `Permutations.AltDigitsSpec` | src/alg/permutations.rs:286-319 | for `k < n!/2` the alternating digits are valid, rank `2k` or `2k + 1`, and have an even digit sum |
| `Permutations.AltDigitsPrefix` | src/alg/permutations.rs:286-319 | the alternating digits agree with those of `2k` before the last two rows |
| `Permutations.AltStep` | src/alg/permutations.rs:286-319 | one row of the alternating loop: the bump, the digit read and the remainder left |
| `Permutations.AlternatingGetElem` | src/alg/permutations.rs:286-319 | the permutation matrix of the Lehmer digits of `2k`, bumped to `2k + 1` when that makes the digit sum even |
| `Permutations.AltRow` | src/alg/permutations.rs:286-319 | one row of the alternating loop: bump on the last two rows when the parity is odd, then place the digit |
| `Permutations.AlternatingGetIndex` | src/alg/permutations.rs:321-343 | half of the Lehmer number of the matrix |
| `Permutations.AlternatingRoundTrip` | src/alg/permutations.rs:286-343 | for every `k < n!/2`, `get_elem(k)` is a permutation matrix with an even number of inversions, and `get_index` of it is `k` |
| `Permutations.DigitSumIsInversions` | src/alg/permutations.rs:286-319 | the digit sum of valid digits is the number of inversions of their permutation: pairs of rows `r < s` with `cols[r] > cols[s]` |
| `Permutations.AltOfEven` | src/alg/permutations.rs:286-319 | valid digits with an even sum are the alternating digits of half their rank, and that half is below `n!/2` |
| `Permutations.HalfRank` | src/alg/permutations.rs:321-343 | the last digit is 0 and half the rank is the rank of all but the last two digits |
| `Permutations.LehmerOfHalf` | src/alg/permutations.rs:286-319 | the digits of twice that half agree with the given digits before the last two rows |
| `Permutations.AlternatingElemOfIndex` | src/core2/traits.rs:80-84 | for every even permutation matrix, the alternating `get_index` gives some `k < n!/2` and the alternating `get_elem(k)` is that matrix |
| `Permutations.Converse` | src/alg/permutations.rs:211-216 | the converse of an `n` by `n` relation, with rows and columns exchanged |
| `Permutations.Compose` | src/alg/permutations.rs:172-182 | the relational product of two `n` by `n` relations |
| `Permutations.ConverseInvolution` | src/alg/permutations.rs:211-216 | the converse of the converse is the relation itself |
| `Permutations.ConverseIsInverse` | src/alg/permutations.rs:211-216 | for a permutation matrix the converse is its inverse: both products give the identity |
| `Permutations.PermutationCells` | src/alg/permutations.rs:211-216 | entry `(i, j)` of a permutation matrix is `cols[i] == j`, and of its converse `cols[j] == i` |
| `Permutations.ComposeAt` | src/alg/permutations.rs:172-182 | entry `(i, k)` of the product holds exactly when some `j` has `(i, j)` in the first and `(j, k)` in the second |
| `Powers.Base.NoBitsAtMostOne` | src/alg/power.rs:95-105 | a base domain without bits has at most one element |
| `Powers.Base.ElemsOf` | src/alg/power.rs:191-202 | the base elements of the digits, one per digit, each of the base width |
| `Powers.ForwardDigits` | src/alg/power.rs:191-202 | the first `n` digits of `idx` in base `b`, least significant first, each below `b` |
| `Powers.ForwardDigitsLinear` | src/alg/power.rs:204-215 | the digits of a number below `b^n` stand for it in radix `b` |
| `Powers.DigitStep` | src/alg/power.rs:191-202 | the next digit is the remainder by `b` and the rest of the number stays in range |
| `Powers.PowPositive` | src/alg/power.rs:182-189 | a power of a positive number is positive, and of zero is zero past the zeroth |
| `Powers.Power.Part` | src/alg/power.rs:108-116 | debug-asserts the element length; the `base.bits` bits from `index * base.bits`, a slice that must lie inside the element, so `index < exponent` unless the base has no bits |
| `Powers.Power.Parts` | src/alg/power.rs:95-105 | the element cut into its `exponent` parts of the base width, none when the base has no bits |
| `Powers.Power.PartsFlatten` | src/alg/power.rs:95-105 | the parts, concatenated, are the element |
| `Powers.Power.EqualByParts` | src/alg/power.rs:108-116 | two elements with the same parts are equal |
| `Powers.Power.FlattenParts` | src/alg/power.rs:95-105 | cutting a concatenation of `exponent` parts of the base width gives the parts back |
| `Powers.Power.Digits` | src/alg/power.rs:204-215 | one base index per part |
| `Powers.Power.Pointwise2Parts` | src/alg/power.rs:270-284 | part `k` of a part-by-part result is the base operation on part `k` of each argument |
| `Powers.Power.RepeatParts` | src/alg/power.rs:246-253 | every part of `exponent` copies of a part is that part |
| `Powers.Power.EqualsLift` | src/alg/power.rs:141-156 | when the base `equals` is equality, so is the power's |
| `Powers.Power.LeqLift` | src/alg/power.rs:223-238 | when the base `leq` is a partial order, so is the power's |
| `Powers.Power.MeetLift` | src/alg/power.rs:270-284 | when the base `meet` is the greatest lower bound, so is the power's |
| `Powers.Power.JoinLift` | src/alg/power.rs:292-306 | when the base `join` is the least upper bound, so is the power's |
| `Powers.Power.BoundsLift` | src/alg/power.rs:246-262 | when the base bottom and top are the least and greatest, `exponent` copies of them are the least and greatest elements of the power |
| `Powers.Power.ContainsLift` | src/alg/power.rs:128-139 | with a countable base whose `contains` recognises its elements, `contains` holds exactly for the `elem(i)` with `i` below the size |
| `Powers.Power.ContainedIsElem` | src/alg/power.rs:128-139 | a contained element is `elem` of its index, which is below the size |
| `Powers.Power.ElemIsContained` | src/alg/power.rs:128-139 | `elem(i)` is contained for every `i` below the size |
| `Powers.Power.ComplementLift` | src/alg/power.rs:314-323 | when the base complement meets to bottom and joins to top, so does the power's |
| `Powers.Power.ComplementBound` | src/alg/power.rs:314-323 | an operation that maps every part and its complement to `bound` maps the element and its complement to `exponent` copies of `bound` |
| `Powers.Power.Pointwise1Parts` | src/alg/power.rs:314-323 | part `k` of a part-by-part result is the base operation on part `k` |
| `Powers.Power.ElemSpecParts` | src/alg/power.rs:191-202 | the parts of `elem(index)` are the base elements of the digits of `index` |
| `Powers.Power.IndexOfElem` | src/alg/power.rs:191-215 | `index(elem(i)) == i` for every `i` below the size |
| `Powers.Power.ElemOfIndex` | src/alg/power.rs:191-215 | for every element whose parts are base elements, `index(x)` is below the size and `elem(index(x)) == x` |
| `Powers.PartIter.constructor` | src/alg/power.rs:95-105 | the iterator holds the whole element and steps by the base width |
| `Powers.PartIter.Next` | src/alg/power.rs:41-49 | yields nothing when no bits are left, and otherwise the next `step` bits, which it drops |
| `Powers.PartIter.Len` | src/alg/power.rs:58-60 | the number of whole parts left |
| `Powers.CollectParts` | src/alg/power.rs:41-49 | running the iterator to the end yields the parts in order |
| `Powers.Contains` | src/alg/power.rs:128-139 | true exactly when every part is an element of the base |
| `Powers.Equals` | src/alg/power.rs:141-156 | true exactly when the base `equals` holds for every pair of parts |
| `Powers.Leq` | src/alg/power.rs:223-238 | true exactly when the base `leq` holds for every pair of parts |
| `Powers.Size` | src/alg/power.rs:182-189 | `base.size` to the power `exponent`, the number of digit tuples |
| `Powers.Elem` | src/alg/power.rs:191-202 | the concatenated base elements of the digits of `index`, least significant first |
| `Powers.ElemLoop` | src/alg/power.rs:191-202 | the loop appends the base element of each digit in turn |
| `Powers.ElemLoopStep` | src/alg/power.rs:191-202 | one round takes the remainder as the digit and moves on with the quotient |
| `Powers.Index` | src/alg/power.rs:204-215 | the sum of the base indices of the parts weighted by the powers of `base.size` |
| `Powers.Top` | src/alg/power.rs:246-253 | `exponent` copies of the base top |
| `Powers.Bottom` | src/alg/power.rs:255-262 | `exponent` copies of the base bottom |
| `Powers.Copies` | src/alg/power.rs:246-253 | extending by `part` `count` times gives `count` copies |
| `Powers.Meet` | src/alg/power.rs:270-284 | the base meets of the pairs of parts, concatenated |
| `Powers.Join` | src/alg/power.rs:292-306 | the base joins of the pairs of parts, concatenated |
| `Powers.Zip2` | src/alg/power.rs:270-284 | the loop extends the result by the operation on each pair of parts |
| `Powers.Complement` | src/alg/power.rs:314-323 | the base complements of the parts, concatenated |
| `Functions.Identity` | src/alg/functions.rs:129-135 | the identity mapping sends each coordinate `k` to itself |
| `Functions.Reversed` | src/alg/functions.rs:138-144 | the reversed mapping of `converse` has `n` entries, each a coordinate below `n` |
| `Functions.RightMapping` | src/alg/functions.rs:148-159 | the mapping of `rotate_right` has `n` entries, each a coordinate below `n` |
| `Functions.LeftMapping` | src/alg/functions.rs:163-176 | the mapping of `rotate_left` has `n` entries, each a coordinate below `n` |
| `Functions.GatherGather` | src/alg/functions.rs:83-126 | re-indexing through two mappings in a row is re-indexing through their composite |
| `Functions.ReversedInvolution` | src/alg/functions.rs:138-144 | the reversed mapping composed with itself is the identity |
| `Functions.RotationsInverse` | src/alg/functions.rs:148-176 | the two rotation mappings are inverse permutations, for every arity |
| `Functions.LeftAfterRight` | src/alg/functions.rs:148-176 | for arity above 1, the left rotation after the right rotation is the identity mapping |
| `Functions.RightAfterLeft` | src/alg/functions.rs:148-176 | for arity above 1, the right rotation after the left rotation is the identity mapping |
| `Functions.GatherIdentity` | src/alg/functions.rs:129-135 | re-indexing through the identity mapping changes nothing |
| `Functions.Functions.AsPower` | src/alg/functions.rs:53-55 | the functions are the power of the codomain with `size^arity` parts, one per argument tuple |
| `Functions.Functions.ChangeArity` | src/alg/functions.rs:75-77 | same domain and codomain, the new arity, and `num_bits` is the codomain width times `size^arity` |
| `Functions.Functions.Unary` | src/alg/functions.rs:129-135 | the unary functions are the arity-1 change, with one part per domain element |
| `Functions.Functions.Source` | src/alg/functions.rs:83-126 | the old tuple index read for a new tuple index is below `size^arity` |
| `Functions.Functions.NewParts` | src/alg/functions.rs:83-126 | part `q` of the polymer is the old part at the source tuple of `q`, and there are `size^new_arity` parts |
| `Functions.Functions.PolymerPart` | src/alg/functions.rs:79-126 | the part of the polymer at the new tuple `y` is the old part at `y[mapping[0]], y[mapping[1]], ...`, and the result has the new `num_bits` |
| `Functions.Functions.PolymerLength` | src/alg/functions.rs:122-123 | the polymer has `num_bits` of the new arity |
| `Functions.Functions.PolymerIdentity` | src/alg/functions.rs:83-126 | the polymer along the identity mapping returns the element unchanged |
| `Functions.Functions.PolymerCompose` | src/alg/functions.rs:83-126 | two polymers in a row equal one polymer along the composite mapping |
| `Functions.Functions.ConverseInvolution` | src/alg/functions.rs:138-144 | `converse` applied twice returns the element |
| `Functions.Functions.RotationsUndo` | src/alg/functions.rs:148-176 | `rotate_left` undoes `rotate_right` and `rotate_right` undoes `rotate_left` |
| `Functions.PolymerEmptyDomainDiffers` | src/alg/functions.rs:105-121 | on an empty domain the unguarded polymer panics (positive arity) or returns a wrong-length result (arity 0), where the guarded one returns the empty function |
| `Functions.Functions.PolymerEmptyDomainAsWritten` | src/alg/functions.rs:105-121 | on an empty domain the loop makes one round and copies the part at index 0: a panic when the arity is positive and the codomain has bits, the element itself at arity 0 |
| `Functions.Functions.PolymerAccepts` | src/alg/functions.rs:87-88 | the two `assert_eq!` of `polymer`: the element has `num_bits` bits and the mapping one entry per argument |
| `Functions.Polymer` | src/alg/operations.rs:55-102 | the stride loop computes exactly the polymer specification, of the new `num_bits`, and the empty result when `size^arity` is 0 |
| `Functions.PolymerStrides` | src/alg/operations.rs:62-69 | the first loop leaves in each new argument's stride the sum of the old place values mapped to it |
| `Functions.PolymerTuples` | src/alg/operations.rs:82-98 | the outer loop appends the parts of all new tuples in linear order, giving the polymer specification |
| `Functions.TuplesNext` | src/alg/operations.rs:83-98 | one round of the odometer keeps the loop invariant, and the last round completes the polymer |
| `Functions.TupleStep` | src/alg/operations.rs:84-95 | the part copied at the new tuple `y` is the polymer's part there |
| `Functions.PolymerIndex` | src/alg/operations.rs:86-95 | the running index at the new tuple `y` is the linear index of the old tuple `y` gathered through the mapping |
| `Functions.Diagonal` | src/alg/functions.rs:129-135 | the argument tuple with every entry `x` |
| `Functions.Identify` | src/alg/functions.rs:129-135 | requires arity at least 1; the polymer to arity 1 along the all-zero mapping, a unary function |
| `Functions.IdentifyPart` | src/alg/functions.rs:129-135 | the part of `identify` at `x` is the old part at the diagonal tuple `(x, ..., x)` |
| `Functions.Converse` | src/alg/functions.rs:138-144 | the polymer along the reversed mapping, of the same width, and applying it twice gives the element back |
| `Functions.RotateRight` | src/alg/functions.rs:148-159 | requires arity at least 1; the polymer along `1, ..., n-1, 0`, undone by the left rotation |
| `Functions.RotateLeft` | src/alg/functions.rs:163-176 | requires arity at least 1; the polymer along `n-1, 0, ..., n-2`, undone by the right rotation |
| `Functions.UnaryIdentity` | src/alg/operations.rs:150-158 | the unary identity operation: its part at `x` is the element of index `x` |
| `Functions.GetProjection` | src/alg/operations.rs:150-158 | requires `coord < arity`; the part of the projection at every tuple `y` is the element of index `y[coord]` |
| `Functions.ProjectionPart` | src/alg/operations.rs:150-158 | the unary identity moved to coordinate `coord` has at tuple `y` the element of index `y[coord]` |
| `Functions.GetProjectionAsWrittenOnlyUnary` | src/alg/operations.rs:157 | the written call passes the arity checks of `polymer` exactly when the arity is 1 |
| `Functions.GetProjectionAsWrittenAccepts` | src/alg/operations.rs:150-158 | whether the written call of `polymer` with the unary identity and `[coord]` passes the two checks of `polymer` |
| `Functions.AsRelation` | src/alg/operations.rs:106-127 | the loop appends `onehot` of every part in order, giving the graph specification |
| `Functions.RelationIsGraph` | src/alg/operations.rs:106-127 | for an operation the graph has `size^(arity+1)` bits, and its run at tuple `q` is the one-hot vector of the value at `q` |
| `Functions.RelationOfOneHotDomain` | src/alg/operations.rs:228-247 | when `onehot` keeps its argument, as for small sets, `as_relation` returns the operation itself |
| `Functions.BooleanGraph` | src/alg/operations.rs:249-259 | on the two-element domain the graph of the unary operation `[e0, e1]` is `[!e0, e0, !e1, e1]` |
| `Products.Product2.Part0` | src/alg/product.rs:51-57 | the first `bits0` bits, and with `part1` it rebuilds the element |
| `Products.Product2.Part1` | src/alg/product.rs:60-66 | the remaining bits, `bits1` of them |
| `Products.Product2.PartsOfPair` | src/alg/product.rs:51-66 | cutting a concatenated pair at `bits0` gives back both components |
| `Products.Product2.EqualByParts` | src/alg/product.rs:51-66 | two elements with equal components are equal |
| `Products.Product2.IndexOfElem` | src/alg/product.rs:127-147 | `elem(i)` has `num_bits` bits and `index(elem(i)) == i` for every `i < size0 * size1` |
| `Products.Product2.ElemOfIndex` | src/alg/product.rs:131-147 | a pair of component elements has index `i0 + size0 * i1` below the size, and `elem` of that index is the pair |
| `Products.Product2.ContainsLift` | src/alg/product.rs:98-103 | `contains` holds exactly for the vectors `elem(i)` when each component's `contains` does so |
| `Products.Product2.ContainedIsElem` | src/alg/product.rs:98-147 | a contained vector is `elem` of its index |
| `Products.Product2.ElemIsContained` | src/alg/product.rs:98-147 | every `elem(i)` is contained |
| `Products.Product2.EqualsLift` | src/alg/product.rs:105-119 | `equals` is equality of vectors when it is in both components |
| `Products.Product2.IsEdgePartialOrder` | src/alg/product.rs:156-170 | the componentwise `is_edge` is reflexive, antisymmetric and transitive when both component orders are |
| `Products.Product2.BoundsLift` | src/alg/product.rs:187-213 | `top`/`bottom` are the greatest and least elements, and `is_top`/`is_bottom` hold exactly for them |
| `Products.Product2.MeetLift` | src/alg/product.rs:222-233 | the concatenated `meet` is the greatest lower bound for `is_edge` |
| `Products.Product2.JoinLift` | src/alg/product.rs:242-253 | the concatenated `join` is the least upper bound for `is_edge` |
| `Products.Product2.ComplementLift` | src/alg/product.rs:262-267 | the intended complement, both halves complemented, meets to `bottom` and joins to `top` |
| `Products.Product2.ComplementAsWrittenTooShort` | src/alg/product.rs:262-267 | the written complement has only `bits0` bits, fewer than `num_bits` whenever `bits1 > 0` |
| `Products.Product2.ComplementAsWritten` | src/alg/product.rs:262-267 | the written complement emits only the first component's complement, so it has `bits0` bits |
| `Products.OffsetMono` | src/adt/product.rs:53-67 | the starting offset of the parts' slices grows with the part number |
| `Products.Slice` | src/adt/product.rs:53-67 | the slice of part `k` has that part's `num_bits` bits |
| `Products.ListContains` | src/adt/product.rs:53-67 | the loop's verdict is the conjunction of every part's `contains` on its slice; an empty product accepts the empty element |
| `Products.PrefixContainsSpec` | src/adt/product.rs:53-67 | the running verdict after `k` parts holds exactly when the first `k` parts contain their slices |
| `Products.ListOfTwo` | src/adt/product.rs:49-51 | a list product of two domains has the width of `Product2` and accepts the same elements |
| `SmallSets.LastTrue` | src/adt/small_set.rs:104-115 | the last set position below `k`, or the length exactly when no bit below `k` is set |
| `SmallSets.IndexOf` | src/adt/small_set.rs:104-115 | the number of a vector is below its length and a set bit whenever some bit is set |
| `SmallSets.Zip` | src/adt/small_set.rs:145-184 | the pairs of bits at equal positions, as many as the shorter vector has |
| `SmallSets.OddBeforeStep` | src/adt/small_set.rs:166-184 | one more position adds its two bits to the parity `looking` |
| `SmallSets.IndexOfOneHot` | src/adt/small_set.rs:95-115 | `index(elem(i)) == i` |
| `SmallSets.OneHotOfIndex` | src/adt/small_set.rs:95-115 | a vector with exactly one set bit is `elem` of its `index` |
| `SmallSets.ValueZero` | src/adt/small_set.rs:119-130 | a vector with no set bit compares as the number 0 |
| `SmallSets.ValueOneHot` | src/adt/small_set.rs:119-130 | the one-hot vector at `i` compares as the binary number `2^i` |
| `SmallSets.Pow2Less` | src/adt/small_set.rs:119-130 | powers of two are strictly increasing |
| `SmallSets.OneHotValueOrder` | src/adt/small_set.rs:119-130 | on one-hot vectors the binary comparison is the order of the indices |
| `SmallSets.OneHotShared` | src/adt/small_set.rs:62-79 | two one-hot vectors share a set bit exactly when their indices are equal |
| `SmallSets.CountOneHotPrefix` | src/adt/small_set.rs:54-60 | a prefix of a one-hot vector holds one set bit once it passes the index, none before |
| `SmallSets.SmallSet.NumBits` | src/adt/small_set.rs:50-52 | the width is the size |
| `SmallSets.SmallSet.Contains` | src/adt/small_set.rs:54-60 | holds exactly when one bit is set |
| `SmallSets.SmallSet.Equals` | src/adt/small_set.rs:62-79 | holds exactly when some bit is set in both, which on valid elements is equality |
| `SmallSets.SmallSet.Size` | src/adt/small_set.rs:91-93 | the number of elements is the width |
| `SmallSets.SmallSet.Elem` | src/adt/small_set.rs:95-102 | requires `index < size`; the one-hot vector at `index`, whose `index` is `index` |
| `SmallSets.SmallSet.Index` | src/adt/small_set.rs:104-115 | requires the width and a set bit; the last set position, and on a one-hot vector the number it stands for |
| `SmallSets.SmallSet.Leq` | src/adt/small_set.rs:119-130 | the vectors compared as little-endian binary numbers, which on valid elements is the order of the indices |
| `SmallSets.SmallSet.Bottom` | src/adt/small_set.rs:134-137 | requires a non-empty set; the element 0 |
| `SmallSets.SmallSet.Top` | src/adt/small_set.rs:139-142 | requires a non-empty set; the element `size - 1` |
| `SmallSets.SmallSet.IsBottom` | src/alg/small_set.rs:142-148 | on valid elements, holds exactly for the element 0 |
| `SmallSets.SmallSet.IsTop` | src/alg/small_set.rs:129-135 | on valid elements, holds exactly for the element `size - 1` |
| `SmallSets.SmallSet.Meet` | src/adt/small_set.rs:146-163 | each bit is set exactly at the first position where either input has a set bit; on valid elements the one-hot vector of the smaller index |
| `SmallSets.SmallSet.Join` | src/adt/small_set.rs:167-183 | each bit is the majority of the running parity and the two bits; on valid elements the one-hot vector of the larger index |
| `SmallSets.MajorityScan` | src/adt/small_set.rs:167-183 | the loop sets each position to the majority of `looking` and the two bits |
| `SmallSets.MeetOneHot` | src/adt/small_set.rs:146-163 | on the one-hot vectors of `i` and `j` the meet loop yields the one-hot vector of `min(i, j)` |
| `SmallSets.JoinOneHot` | src/adt/small_set.rs:167-183 | on the one-hot vectors of `i` and `j` the join loop yields the one-hot vector of `max(i, j)` |
| `SmallSets.OddBeforeOneHot` | src/adt/small_set.rs:167-183 | before position `k` the parity of set bits is odd exactly when one of `i`, `j` lies below `k` |
| `SmallSets.FixedSet.NumBits` | src/alg/fixed_set.rs:30-32 | the width is `SIZE`, as for the small set of that size |
| `SmallSets.FixedSet.GetElem` | src/alg/fixed_set.rs:75-83 | requires `index < SIZE`; the one-hot vector at `index`, whose index is `index` |
| `SmallSets.FixedSet.OneHotOf` | src/alg/fixed_set.rs:98-103 | a copy of the element, which for a valid element is its own one-hot encoding |
| `Structure.Universe.Size` | src/structure.rs:305-311 | every universe built here reports a size: its factors always know theirs, so the `None` case does not arise |
| `Structure.Universe.SizeZeroIffEmpty` | src/structure.rs:305-311 | the size is 0 exactly when the universe has no member |
| `Structure.Universe.Contains` | src/structure.rs:313-316 | returns (never false) exactly on members; a leaf asserts the number is below its size and a product conjoins its factors |
| `Structure.Universe.Equals` | src/structure.rs:318-323 | returns exactly when both are members, and then answers whether they are equal |
| `Structure.Universe.LessOrEquals` | src/structure.rs:326-341 | returns exactly when both are members: the numeric order in `ModuloInt`, equality in `AntiChain`, componentwise in a product |
| `Structure.Universe.LeqReflexive` | src/structure.rs:189-197 | `less_or_equals` is reflexive on members |
| `Structure.Universe.LeqAntisymmetric` | src/structure.rs:260-268 | `less_or_equals` is antisymmetric on members |
| `Structure.Universe.LeqTransitive` | src/structure.rs:326-341 | `less_or_equals` is transitive on members |
| `Structure.Universe.LessThanIsStrict` | src/structure.rs:141-146 | the overrides of `less_than` agree with the default `less_or_equals && !equals`, panics included, so it is the strict order |
| `Structure.Universe.LessThan` | src/structure.rs:199-202 | returns exactly when both are members (the leaves assert it) and then answers `less_or_equals` and not equal: `<` in `ModuloInt`, `false` in `AntiChain`, the default in a product |
| `Structure.Universe.DefaultLessThan` | src/structure.rs:141-146 | the default `and(less_or_equals, not(equals))` returns exactly on members and is then the strict order of `less_or_equals` |
| `Structure.Unit` | src/structure.rs:206-209 | panics exactly when the size is 0; otherwise 0, a member that `product` leaves every member unchanged by |
| `Structure.Inverse` | src/structure.rs:211-218 | panics exactly on non-members; otherwise a member whose product with `a` either way is the unit 0 |
| `Structure.Mul` | src/structure.rs:220-228 | panics exactly on non-members; otherwise the member `(a + b) mod size` |
| `Structure.ModSubtract` | src/structure.rs:220-228 | subtracting `size` once from a sum below `2 * size` is reducing it modulo `size` |
| `Structure.MulCommutative` | src/structure.rs:220-228 | `product` is commutative |
| `Structure.MulAssociative` | src/structure.rs:220-228 | `product` is associative on members |
| `Structure.MulAsWritten` | src/structure.rs:220-228 | the `u32` sum panics when it does not fit; otherwise the result is the group product |
| `Structure.MulAsWrittenSmall` | src/structure.rs:220-228 | up to size `2^31` the written `product` never overflows and is the group product |
| `Structure.MulAsWrittenOverflows` | src/structure.rs:222 | with size `2^32 - 1`, `2^31 + 2^31` overflows, though the group product is 1 |
| `Algebras.TwoXor` | src/alg/traits.rs:82-86 | on the two-element algebra the default `xor` is the inequality of the two values |
| `Algebras.TwoImp` | src/alg/traits.rs:90-92 | on the two-element algebra the default `imp` is implication |
| `Algebras.TwoEqu` | src/alg/traits.rs:96-98 | on the two-element algebra the default `equ` is the equality of the two values |
| `Algebras.TwoInv` | src/alg/two_element_alg.rs:59-63 | `inv` sends zero to zero and a non-zero element to an inverse for the ring product, as `Field::inv` promises |
| `Algebras.IntNeg` | src/alg/small_integers.rs:83-85 | panics exactly on `i32::MIN`; otherwise the negation, an `i32` |
| `Algebras.IntAdd` | src/alg/small_integers.rs:87-89 | the sum exactly when it fits in `i32`, a panic otherwise |
| `Algebras.IntSub` | src/alg/small_integers.rs:91-93 | the difference exactly when it fits in `i32`, a panic otherwise |
| `Algebras.IntMul` | src/alg/small_integers.rs:95-97 | the product exactly when it fits in `i32`, a panic otherwise |
| `Algebras.IntDefaultSub` | src/alg/traits.rs:113-115 | where the default `add(a, neg(b))` returns, it agrees with the checked difference |
| `Algebras.IntSubOverride` | src/alg/small_integers.rs:91-93 | the default `sub` would panic on `-1 - i32::MIN`, whose value `i32::MAX` the override returns |
| `Algebras.IntRingLaws` | src/alg/small_integers.rs:78-104 | where the checked operations return they obey the integer ring laws: identities, commutativity, inverses, associativity |
| `Algebras.Zip` | src/alg/binary_vectors.rs:114-135 | the coordinatewise image of two vectors of one length |
| `Algebras.FoldMeetAll` | src/alg/binary_vectors.rs:73-80 | the fold of `meet` is true exactly when the seed and every entry are |
| `Algebras.Algebra.Top` | src/alg/binary_vectors.rs:103-106 | `top` has the element type of the algebra |
| `Algebras.Algebra.Bot` | src/alg/binary_vectors.rs:108-111 | `bot` has the element type and the shape of `top` |
| `Algebras.Algebra.Contains` | src/alg/binary_vectors.rs:65-71 | an element is contained exactly when it has the shape of `top` (vector lengths included) |
| `Algebras.Algebra.ContainedCompatible` | src/alg/product_algebra.rs:56-60 | two contained elements pass every length assertion together |
| `Algebras.Algebra.Equals` | src/alg/product_algebra.rs:62-66 | on elements of one shape, `equals` is equality |
| `Algebras.Algebra.Edge` | src/alg/binary_vectors.rs:87-94 | for vectors, the fold of `imp` under `meet` from `top` holds exactly when every coordinate of the first implies that of the second |
| `Algebras.Algebra.EdgeReflexive` | src/alg/traits.rs:54-55 | `edge` is reflexive, as `PartialOrder` promises |
| `Algebras.Algebra.EdgeAntisymmetric` | src/alg/traits.rs:54-55 | `edge` is antisymmetric, as `PartialOrder` promises |
| `Algebras.Algebra.EdgeTransitive` | src/alg/traits.rs:54-55 | `edge` is transitive, as `PartialOrder` promises |
| `Algebras.Algebra.Forward` | src/alg/traits.rs:48-51 | the default `forward` is the strict order of `edge` |
| `Algebras.Algebra.Meet` | src/alg/product_algebra.rs:74-79 | `meet` keeps the shape of its arguments, and is contained when they are |
| `Algebras.Algebra.Join` | src/alg/product_algebra.rs:81-86 | `join` keeps the shape of its arguments, and is contained when they are |
| `Algebras.Algebra.MeetIsGlb` | src/alg/traits.rs:68-74 | `meet` is the greatest lower bound for `edge` |
| `Algebras.Algebra.JoinIsLub` | src/alg/traits.rs:68-74 | `join` is the least upper bound for `edge` |
| `Algebras.Algebra.Bounded` | src/alg/traits.rs:57-64 | every contained element lies between `bot` and `top` |
| `Algebras.Algebra.Not` | src/alg/binary_vectors.rs:141-144 | the complement of a contained element is contained and of the same shape |
| `Algebras.Algebra.Complemented` | src/alg/traits.rs:76-80 | the complement meets to `bot` and joins to `top` |
| `Algebras.Algebra.DefaultXor` | src/alg/traits.rs:82-86 | the default `xor` of contained elements is contained |
| `Algebras.Algebra.DefaultImp` | src/alg/traits.rs:90-92 | the default `imp` of contained elements is contained |
| `Algebras.Algebra.DefaultEqu` | src/alg/traits.rs:96-98 | the default `equ` of contained elements is contained |
| `Algebras.Algebra.XorBottom` | src/alg/traits.rs:82-86 | `xor` is `bot` exactly for equal arguments |
| `Algebras.Algebra.ImpTop` | src/alg/traits.rs:90-92 | `imp` is `top` exactly when `edge` holds |
| `Algebras.Algebra.EquTop` | src/alg/traits.rs:96-98 | `equ` is `top` exactly for equal arguments |
| `Algebras.Algebra.VectorOverrides` | src/alg/binary_vectors.rs:146-171 | the coordinatewise overrides of `xor`, `imp` and `equ` agree with the defaults on contained vectors |
| `Algebras.Algebra.Unit` | src/alg/product_algebra.rs:131-133 | `unit` has the element type and the shape of `top` |
| `Algebras.Algebra.Mul` | src/alg/product_algebra.rs:118-123 | for `SmallIntegers` the product, `None` (a panic) exactly when it leaves `i32`; for vectors the coordinatewise `&&`; for a product the pair of component products, `None` when either panics; the result has the element type and is contained when the first factor is |
| `Algebras.Algebra.MulAssociative` | src/alg/traits.rs:118-122 | `mul` is associative on contained elements: when both inner products return, both bracketings give the same result, or both panic |
| `Algebras.Algebra.UnitIsIdentity` | src/alg/traits.rs:124-128 | `unit` is a two-sided identity of `mul` on contained elements, and those products never panic |
| `Algebras.VectorZero` | src/alg/binary_vectors.rs:178-180 | `zero` is `bot`, the all-false vector |
| `Algebras.VectorNeg` | src/alg/binary_vectors.rs:182-184 | every vector is its own additive inverse |
| `Algebras.VectorAdd` | src/alg/binary_vectors.rs:186-188 | `add` is the coordinatewise `xor` |
| `Algebras.VectorSub` | src/alg/traits.rs:113-115 | the default `sub` is undone by adding `b` back |
| `Algebras.VectorRingLaws` | src/alg/binary_vectors.rs:174-211 | `add` is associative and commutative with `zero` as identity, and `mul`, the coordinatewise meet, distributes over it |
| `BitsArray.Bits.Contents` | src/array.rs:74-76 | the bits of the array are `len` many, the words' padding excluded |
| `BitsArray.Bits.Constant` | src/array.rs:78-83 | requires `len <= usize::MAX - 31`; every one of the `len` bits is `elem` |
| `BitsArray.Bits.Generate` | src/array.rs:85-99 | requires `len <= usize::MAX - 31`; bit `i` is `gen(i)` for every `i < len`, in `(len + 31) >> 5` words |
| `BitsArray.Bits.Not` | src/array.rs:101-109 | a fresh array of the same length whose every bit is complemented |
| `BitsArray.Bits.And` | src/array.rs:111-120 | requires equal lengths; a fresh array whose bits are the conjunctions |
| `BitsArray.Bits.FromWords` | src/array.rs:82 | the literal `Bits { vec, len }` keeps the words and the length |
| `BitsArray.Bits.SlowGet` | src/array.rs:122-127 | requires `index < len`; the bit at `index` |
| `BitsArray.Bits.SlowSet` | src/array.rs:129-138 | requires `index < len`; the bit at `index` becomes `elem` and no other bit changes |
| `BitsArray.Bits.CountOnes` | src/array.rs:142-151 | the number of set bits among the `len` bits, the padding masked off even when `len` is a multiple of 32 |
| `BitsArray.Bits.CountZeros` | src/array.rs:153-155 | the number of clear bits: `len` minus the set ones |
| `BitsArray.GenerateWord` | src/array.rs:89-93 | the inner loop sets the first `count` bits of the word from `gen(idx)` on |
| `BitsArray.GenerateStep` | src/array.rs:88-95 | each pushed word extends the generated prefix by its bits |
| `BitsArray.CountWordStep` | src/array.rs:144-148 | each round of the loop adds the set bits of the word before the current one |
| `BitsArray.CountLastWord` | src/array.rs:149-150 | the masked last word completes the count of the first `len` bits |
| `BitsArray.MultiplesOfFive` | src/array.rs:178-185 | the indicator of the multiples of five below `num` |
| `BitsArray.CountMultiplesOfFive` | src/array.rs:178-185 | `(num + 4) / 5` of the first `num` indices are multiples of five, as the `bits_generate` test expects |
| `BoolLogic.Lift` | src/core/boolean.rs:247-249 | `bool_lift` maps true and false to the unit and zero |
| `BoolLogic.DefaultAnd` | src/core/boolean.rs:68-74 | the default `bool_and` by De Morgan is conjunction, as the override |
| `BoolLogic.DefaultEqu` | src/core/boolean.rs:76-80 | the default `bool_equ` is equality, as the override |
| `BoolLogic.DefaultImp` | src/core/boolean.rs:82-86 | the default `bool_imp` is implication, as the override |
| `BoolLogic.Sum3` | src/core/boolean.rs:88-92 | the parity of the three values |
| `BoolLogic.Maj` | src/core/boolean.rs:94-100 | true exactly when at least two of the three values are |
| `BoolLogic.ValueCompareStep` | src/core/boolean.rs:193-218 | adding a new most significant pair decides the comparison unless the two bits are equal |
| `BoolLogic.FoldAll` | src/core/boolean.rs:103-113 | true exactly when every element is |
| `BoolLogic.FoldAny` | src/core/boolean.rs:115-125 | true exactly when some element is |
| `BoolLogic.FoldSum` | src/core/boolean.rs:127-137 | true exactly when an odd number of elements are |
| `BoolLogic.FoldOne` | src/core/boolean.rs:139-153 | true exactly when one element is |
| `BoolLogic.FoldAmo` | src/core/boolean.rs:155-168 | true exactly when at most one element is |
| `BoolLogic.CmpEqu` | src/core/boolean.rs:170-181 | true exactly when the two sequences agree |
| `BoolLogic.CmpNeq` | src/core/boolean.rs:183-191 | true exactly when the two sequences differ |
| `BoolLogic.CmpLeq` | src/core/boolean.rs:193-205 | true exactly when the first sequence, as a little-endian number, is at most the second |
| `BoolLogic.CmpLtn` | src/core/boolean.rs:207-218 | true exactly when the first sequence, as a little-endian number, is below the second |
| `BoolLogic.MajCompare` | src/core/boolean.rs:193-205 | the step `maj(not a, b, r)` keeps `r` on equal bits and is `b` otherwise |
| `BooleanDomain.Contains` | src/alg/boolean.rs:38-41 | every one-bit vector is an element, `elem` of some index |
| `BooleanDomain.Equals` | src/alg/boolean.rs:43-51 | equality of the one-bit vectors |
| `BooleanDomain.IsEdge` | src/alg/boolean.rs:74-82 | the order of the indices, so `[0] <= [1]` |
| `BooleanDomain.Top` | src/alg/boolean.rs:91-93 | the element of index 1 |
| `BooleanDomain.Bottom` | src/alg/boolean.rs:100-102 | the element of index 0 |
| `BooleanDomain.IsTop` | src/alg/boolean.rs:95-98 | true exactly for `top` |
| `BooleanDomain.IsBottom` | src/alg/boolean.rs:104-107 | true exactly for `bottom` |
| `BooleanDomain.Meet` | src/alg/boolean.rs:114-122 | the greatest lower bound for `is_edge` |
| `BooleanDomain.Join` | src/alg/boolean.rs:129-137 | the least upper bound for `is_edge` |
| `BooleanDomain.Complement` | src/alg/boolean.rs:144-147 | meets the argument to `bottom` and joins it to `top` |
| `BooleanDomain.ComplementAsWrittenPanics` | src/adt/boolean.rs:131-140 | the written complement reads bit 0 of the fresh empty vector, so it panics on every element |
| `BooleanDomain.ComplementAsWritten` | src/adt/boolean.rs:131-140 | the written complement panics on every element (`None`): the bit is read from the fresh empty vector |
| `BooleanDomain.Get` | src/adt/boolean.rs:138 | `get` returns exactly when the index is in range, and then the entry at it |
| `BooleanDomain.BooleanLatticeLaws` | src/adt/boolean.rs:79-141 | `leq` is a partial order with `bottom` and `top` as least and greatest, and complement is an involution |
| `Core2Boolean.GetElem` | src/core2/boolean.rs:39-43 | requires `index < 2`; the one-bit vector that holds `index == 1` |
| `Core2Boolean.GetIndex` | src/core2/boolean.rs:45-48 | requires one bit; the index below 2, which is 1 exactly when the bit is set |
| `Core2Boolean.ElemIndexRoundTrip` | src/core2/boolean.rs:39-53 | `get_elem` and `get_index` are inverse bijections between `0..2` and the one-bit vectors |
| `Core2Boolean.EvaluateNot` | src/core2/boolean.rs:69-73 | requires one argument of one bit; the one-bit vector of the negated bit |
| `Core2Boolean.EvaluateNotSwapsElems` | src/core2/boolean.rs:69-73 | negation maps element `i` to element `1 - i`, and twice gives the argument back |
| `Core2Solver.Lift` | src/core2/solver.rs:108-114 | one of the two constants, `TRUE` exactly for `true` |
| `Core2Solver.LiftTruth` | src/core2/solver.rs:108-114 | lifting and reading back are inverse on the two constants |
| `Core2Solver.Not` | src/core2/solver.rs:260-263 | negating the literal lifts the negated truth value |
| `Core2Solver.AndAsWritten` | src/core2/solver.rs:265-269 | the written `bool_and` takes the minimum of `elem1` with itself, so it returns `elem1` |
| `Core2Solver.OrAsWritten` | src/core2/solver.rs:271-275 | the written `bool_or` takes the maximum of `elem1` with itself, so it returns `elem1` |
| `Core2Solver.AndOrAsWrittenIgnoreSecond` | src/core2/solver.rs:265-275 | as written `and(TRUE, FALSE)` is `TRUE` and `or(FALSE, TRUE)` is `FALSE`, against the conjunction and disjunction |
| `Core2Solver.And` | src/core2/solver.rs:265-269 | with both arguments, the lifted conjunction |
| `Core2Solver.Or` | src/core2/solver.rs:271-275 | with both arguments, the lifted disjunction |
| `Core2Solver.Xor` | src/core2/solver.rs:277-285 | the lifted inequality of the two values |
| `Core2Solver.Equ` | src/core2/solver.rs:134-138 | the default `bool_equ` is the lifted equality |
| `Core2Solver.Imp` | src/core2/solver.rs:140-144 | the default `bool_imp` run over the intended `or`: the lifted implication |
| `Core2Solver.Sum3` | src/core2/solver.rs:146-150 | the default `bool_sum3` is the lifted parity of the three values |
| `Core2Solver.Maj` | src/core2/solver.rs:152-158 | the default `bool_maj` run over the intended `and` and `or`: the lifted majority of the three values |
| `Core2Solver.Truths` | src/core2/solver.rs:161-256 | the truth values a sequence of constants stands for, one per entry |
| `Core2Solver.FoldAll` | src/core2/solver.rs:161-167 | over the intended `and`: `TRUE` exactly when every entry is |
| `Core2Solver.FoldAny` | src/core2/solver.rs:170-176 | over the intended `or`: `TRUE` exactly when some entry is |
| `Core2Solver.FoldSum` | src/core2/solver.rs:179-185 | `TRUE` exactly when an odd number of entries are |
| `Core2Solver.FoldOne` | src/core2/solver.rs:188-198 | over the intended `and` and `or`: `TRUE` exactly when one entry is |
| `Core2Solver.FoldAmo` | src/core2/solver.rs:201-210 | over the intended `and` and `or`: `TRUE` exactly when at most one entry is |
| `Core2Solver.CmpEqu` | src/core2/solver.rs:213-221 | requires equal lengths; over the intended `and`: `TRUE` exactly when the sequences agree |
| `Core2Solver.CmpNeq` | src/core2/solver.rs:224-227 | over the intended `and`: `TRUE` exactly when the sequences differ |
| `Core2Solver.CmpLeq` | src/core2/solver.rs:231-239 | over the intended `maj`: `TRUE` exactly when the first, as a little-endian number, is at most the second |
| `Core2Solver.CmpLtn` | src/core2/solver.rs:243-251 | over the intended `maj`: `TRUE` exactly when the first, as a little-endian number, is below the second |
| `Core2Solver.ImpAsWritten` | src/core2/solver.rs:140-144 | the default `bool_imp` over the written `or` is `not a`, and differs from the implication at `imp(TRUE, TRUE)` |
| `Core2Solver.MajAsWritten` | src/core2/solver.rs:152-158 | the default `bool_maj` over the written `and` and `or` is its second argument, and differs from the majority at `maj(FALSE, TRUE, FALSE)` |
| `Core2Solver.FoldAllAsWritten` | src/core2/solver.rs:161-167 | over the written `and`: `TRUE` for every input, `[FALSE]` included |
| `Core2Solver.FoldAnyAsWritten` | src/core2/solver.rs:170-176 | over the written `or`: `FALSE` for every input, `[TRUE]` included |
| `Core2Solver.FoldOneAsWritten` | src/core2/solver.rs:188-198 | over the written `and` and `or`: `FALSE` for every input, `[TRUE]` included |
| `Core2Solver.FoldAmoAsWritten` | src/core2/solver.rs:201-210 | over the written `and` and `or`: `TRUE` for every input, `[TRUE, TRUE]` included |
| `Core2Solver.CmpEquAsWritten` | src/core2/solver.rs:213-221 | requires equal lengths; over the written `and`: `TRUE` for every pair, `[TRUE]` and `[FALSE]` included |
| `Core2Solver.CmpNeqAsWritten` | src/core2/solver.rs:224-227 | over the written `and`: `FALSE` for every pair |
| `Core2Solver.CmpLeqAsWritten` | src/core2/solver.rs:231-239 | over the written `maj`: the last entry of the second sequence, `TRUE` when both are empty |
| `Core2Solver.CmpLtnAsWritten` | src/core2/solver.rs:243-251 | over the written `maj`: the last entry of the second sequence, `FALSE` when both are empty |
| `Core2Solver.Lifted` | src/core2/solver.rs:315-317 | the constants a bit vector stands for, each bit lifted |
| `Core2Solver.Push` | src/core2/solver.rs:306-309 | the stored bits, read back as constants, gain `elem` at the end |
| `Core2Solver.Pop` | src/core2/solver.rs:311-313 | `None` on an empty vector; otherwise the last stored bit lifted, and the rest stays |
| `Core2Solver.Get` | src/core2/solver.rs:315-317 | the stored bit at `index`, lifted |
| `Core2Solver.Set` | src/core2/solver.rs:319-321 | only the entry at `index` changes, to `elem` |
| `Core2Solver.Resize` | src/core2/solver.rs:297-300 | the new length; old entries kept below the old length, `elem` after it |
| `Core2Solver.Truncate` | src/core2/solver.rs:293-295 | the entries keep the first `new_len` |
| `Core2Solver.BitItNextAsWritten` | src/core2/solver.rs:345-347 | the written `next` never yields an item |
| `Core2Solver.BitItAsWrittenYieldsNothing` | src/core2/solver.rs:331-348 | on a one-bit vector the written iterator stops at once though one item is left |
| `Core2Solver.BitItNext` | src/core2/solver.rs:342-348 | `next` as intended: the lifted front bit and one fewer left, or `None` with nothing changed once drained |
| `Core2Solver.CollectCopyIter` | src/core2/solver.rs:331-334 | draining `copy_iter` yields every stored bit lifted, in order |
| `CoreBitVec.WordsFor` | src/core/bitvec.rs:57-61 | `(n + 31) / 32` words hold `n` bits with less than one word to spare |
| `CoreBitVec.WordsTruncate` | src/core/bitvec.rs:57-61 | `Vec::truncate` on the words keeps a prefix of at most that many words |
| `CoreBitVec.WordsResize` | src/core/bitvec.rs:63-70 | `Vec::resize` on the words keeps the old words and pads with copies of the fill word |
| `CoreBitVec.FillPartialWord` | src/core/bitvec.rs:64-66 | the first loop of `resize` fills the partial word with `elem` up to a word boundary or `new_len`, keeping the earlier bits |
| `CoreBitVec.PartialWordStep` | src/core/bitvec.rs:64-66 | inside a partial word one more bit needs no new word |
| `CoreBitVec.ResizeWords` | src/core/bitvec.rs:63-70 | with the words past `len` dropped, resizing the words gives the old bits followed by copies of `elem` |
| `CoreBitVec.ResizeBits` | src/core/bitvec.rs:63-70 | the bits after the corrected `resize` are the bits after its first loop, cut or padded with `elem` |
| `CoreBitVec.ConstantSplit` | src/core/bitvec.rs:63-70 | a run of fill bits followed by more fill bits is one run |
| `CoreBitVec.ResizeAsWritten` | src/core/bitvec.rs:63-70 | the written `resize` has the new length and, when shrinking, keeps the prefix |
| `CoreBitVec.ResizeAfterPopKeepsStaleWord` | src/core/bitvec.rs:63-93 | after 33 pushes of `true` and one pop, growing to 33 with `false` reads `true` at index 32 through the stale word |
| `CoreBitVec.BitVec.Contents` | src/core/bitvec.rs:139-141 | the bits of the vector, `len` of them |
| `CoreBitVec.BitVec.constructor` | src/core/bitvec.rs:31-36 | the empty vector with no words |
| `CoreBitVec.BitVec.WithCapacity` | src/core/bitvec.rs:38-43 | the empty vector; the capacity only reserves memory |
| `CoreBitVec.BitVec.FromElem` | src/core/bitvec.rs:45-50 | the vector holding `elem` alone, in one word |
| `CoreBitVec.BitVec.Clear` | src/core/bitvec.rs:52-55 | no bits and no words |
| `CoreBitVec.BitVec.Truncate` | src/core/bitvec.rs:57-61 | requires `new_len <= len`; the first `new_len` bits, the words cut to those they need |
| `CoreBitVec.BitVec.Push` | src/core/bitvec.rs:77-83 | the bits gain `elem` at the end; a zero word is added exactly on a word boundary |
| `CoreBitVec.BitVec.Pop` | src/core/bitvec.rs:85-93 | `None` on an empty vector; otherwise the last bit and one bit fewer; the words stay |
| `CoreBitVec.BitVec.Get` | src/core/bitvec.rs:103-108 | requires `index < len`; bit `index` of the vector |
| `CoreBitVec.BitVec.Set` | src/core/bitvec.rs:117-126 | requires `index < len`; only bit `index` changes, to `elem`, and no word is added |
| `CoreBitVec.BitVec.IsEmpty` | src/core/bitvec.rs:143-145 | true exactly for the vector with no bits |
| `CoreBitVec.BitVec.Resize` | src/core/bitvec.rs:63-70 | shrinking keeps the prefix; growing appends `new_len - len` copies of `elem`; the words are those `new_len` needs |
| `CoreBitVec.BitVec.FillWord` | src/core/bitvec.rs:64-66 | the loop appends copies of `elem` until a word boundary or `new_len` |
| `CoreBitVec.BitVec.Append` | src/core/bitvec.rs:95-101 | the bits of `other` follow the bits of this vector, and `other` is left empty |
| `CoreBitVec.BitVec.Extend` | src/core/bitvec.rs:157-164 | the items follow the bits in order |
| `CoreBitVec.CopyIter.constructor` | src/core/bitvec.rs:151-153 | the iterator starts at position 0 of the vector |
| `CoreBitVec.CopyIter.Next` | src/core/bitvec.rs:183-191 | the bit at `pos` and one step on while bits are left, then `None` for good |
| `CoreBitVec.CopyIter.SizeHint` | src/core/bitvec.rs:193-197 | exact: the number of bits not yet yielded |
| `CoreBitVec.FromIter` | src/core/bitvec.rs:168-172 | a fresh vector holding exactly the items in order |
| `CoreBitVec.CollectCopyIter` | src/core/bitvec.rs:151-197 | draining `copy_iter` yields the bits of the vector in order |
| `GenericVector.FlattenLen` | src/core/genvec.rs:43-50 | the concatenation is as long as the parts together |
| `GenericVector.Concat` | src/core/genvec.rs:43-50 | the parts one after another, of their total length |
| `GenericVector.Split` | src/core/genvec.rs:54-70 | none for an empty vector; otherwise `len(v) / len` parts, part `i` the `i`-th run of `len` elements |
| `GenericVector.PushChunk` | src/core/genvec.rs:62-67 | the inner loop pushes the next `len` elements of the shared iterator |
| `GenericVector.Chunk` | src/core/genvec.rs:54-70 | the `i`-th run of `len` consecutive elements |
| `GenericVector.FlattenChunks` | src/core/genvec.rs:43-71 | concatenating the split parts gives the vector without its remainder |
| `GenericVector.FlattenChunkStep` | src/core/genvec.rs:43-71 | the last of the chunks extends the concatenated prefix by one chunk |
| `GenericVector.FlattenPrefixStep` | src/core/genvec.rs:43-50 | one more part of the prefix appends that part |
| `GenericVector.ChunkFlatten` | src/core/genvec.rs:43-71 | splitting a concatenation of parts of length `len` gives the parts back |
| `GenericVector.ChunkOfAppend` | src/core/genvec.rs:43-71 | the chunks of a vector with one more chunk appended are the old chunks and the new one |
| `GenericVector.FromElem` | src/core/genvec.rs:73-77 | a vector with the one element |
| `GenericVector.Word` | src/core/genvec.rs:271-295 | word `w` of the bit store, 32 bits |
| `GenericVector.GetUnchecked` | src/core/genvec.rs:271-278 | bit `index % 32` of word `index / 32` is bit `index` |
| `GenericVector.SetUnchecked` | src/core/genvec.rs:284-295 | setting or clearing bit `index % 32` of word `index / 32` changes bit `index` alone |
| `GenericVector.UnitVec.Contents` | src/core/genvec.rs:459-461 | a unit vector stands for `len` units |
| `GenericVector.UnitVec.constructor` | src/core/genvec.rs:392-398 | the empty vector |
| `GenericVector.UnitVec.FromElem` | src/core/genvec.rs:410-412 | one unit |
| `GenericVector.UnitVec.FromIter` | src/core/genvec.rs:371-380 | as many units as the iterator yields |
| `GenericVector.UnitVec.Clear` | src/core/genvec.rs:414-416 | no units |
| `GenericVector.UnitVec.Truncate` | src/core/genvec.rs:418-421 | requires `new_len <= len`; the first `new_len` units |
| `GenericVector.UnitVec.Resize` | src/core/genvec.rs:423-425 | the length becomes `new_len`, shrinking or growing |
| `GenericVector.UnitVec.Push` | src/core/genvec.rs:429-431 | one more unit |
| `GenericVector.UnitVec.Pop` | src/core/genvec.rs:433-440 | `None` when empty; otherwise a unit and one fewer |
| `GenericVector.UnitVec.Append` | src/core/genvec.rs:442-445 | the units of `other` move over, and `other` is left empty |
| `GenericVector.UnitVec.Extend` | src/core/genvec.rs:382-389 | as many more units as the iterator yields |
| `GenericVector.UnitVec.Split` | src/core/genvec.rs:400-408 | none for the empty vector; otherwise `len / k` vectors of `k` units, covering all but less than `k` |
| `GenericVector.UnitVec.Slice` | src/genvec/unitvec.rs:156-159 | requires only `start <= end`; the slice has `end - start` units |
| `GenericVector.UnitIter.constructor` | src/core/genvec.rs:366-368 | the iterator has every unit of the vector left |
| `GenericVector.UnitIter.Next` | src/core/genvec.rs:318-325 | a unit and one fewer left while any are left, then `None` for good |
| `GenericVector.UnitIter.SizeHint` | src/core/genvec.rs:327-329 | exact: the units left |
| `GenericVector.UnitIter.Count` | src/core/genvec.rs:331-333 | the units left |
| `GenericVector.UnitIter.Last` | src/core/genvec.rs:335-341 | a unit exactly when one is left |
| `GenericVector.UnitIter.Nth` | src/core/genvec.rs:343-352 | a unit when more than `n` are left, consuming `n + 1`; otherwise `None` and drained |
| `GenericVector.DrainUnitIter` | src/core/genvec.rs:315-368 | draining the iterator yields exactly `len` units |
| `GenVecBitVec.Equals` | src/genvec/bitvec.rs:173-191 | true exactly when the two vectors hold the same bits, the padding of the last word ignored |
| `GenVecBitVec.BitSlice.Contents` | src/genvec/bitvec.rs:262-264 | the viewed bits, `end - start` of them |
| `GenVecBitVec.BitSlice.constructor` | src/genvec/bitvec.rs:163-169 | the slice of a whole vector views all its bits |
| `GenVecBitVec.BitSlice.Sub` | src/genvec/bitvec.rs:282-291 | the view of the given bounds of the vector |
| `GenVecBitVec.BitSlice.Len` | src/genvec/bitvec.rs:262-264 | the number of viewed bits |
| `GenVecBitVec.BitSlice.IsEmpty` | src/genvec/bitvec.rs:266-268 | true exactly when no bit is viewed |
| `GenVecBitVec.BitSlice.Get` | src/genvec/bitvec.rs:270-274 | requires `start + index < end`; the viewed bit at `index` |
| `GenVecBitVec.BitSlice.Slice` | src/genvec/bitvec.rs:282-291 | requires `s <= e` within the view; a fresh view of those bits |
| `GenVecBitVec.BitSlice.Next` | src/genvec/bitvec.rs:305-313 | the front bit and one fewer viewed, or `None` with nothing changed once empty |
| `GenVecBitVec.BitSlice.NextBack` | src/genvec/bitvec.rs:326-335 | `next_back` as intended: the back bit and one fewer viewed, or `None` once empty |
| `GenVecBitVec.BitSlice.SizeHint` | src/genvec/bitvec.rs:315-318 | exact: the bits left |
| `GenVecBitVec.NextBackAsWritten` | src/genvec/bitvec.rs:326-335 | the written `next_back` reads position `start` while moving `end` back |
| `GenVecBitVec.NextBackAsWrittenReadsFront` | src/genvec/bitvec.rs:328 | on `[true, false]` the written `next_back` yields the front `true`, not the back `false` |
| `GenVecBitVec.CollectForward` | src/genvec/bitvec.rs:302-320 | iterating a slice from the front yields its bits in order |
| `GenVecBitVec.CollectBackward` | src/genvec/bitvec.rs:324-336 | iterating a slice from the back yields its bits in reverse order |
| `OldBitVec.FillRange` | src/bitvec.rs:151-158 | the words with every bit from `lo` to `hi` set to the fill value and all others kept, which is what OR-ing or AND-NOT-ing the mask `!0 << (len & 31)` does |
| `OldBitVec.ResizeData` | src/bitvec.rs:150-165 | after filling the partial word and resizing the word vector to `(new_len + 31) >> 5` words, the first `new_len` bits are the old prefix when shrinking, and the old bits followed by `new_len - len` copies of the fill value when growing |
| `OldBitVec.BitVec.Contents` | src/bitvec.rs:123-127 | the vector holds exactly `len` bits, the padding of the last word excluded |
| `OldBitVec.BitVec.constructor` | src/bitvec.rs:130-135 | `new` yields the empty vector |
| `OldBitVec.BitVec.WithCapacity` | src/bitvec.rs:137-143 | `with_capacity` yields the empty vector, whatever the capacity |
| `OldBitVec.BitVec.Clear` | src/bitvec.rs:145-148 | `clear` drops every word and leaves the empty vector |
| `OldBitVec.BitVec.Resize` | src/bitvec.rs:150-165 | shrinking keeps the first `new_len` bits; growing appends `new_len - len` copies of `value` after the old bits, including the stale bits of the last partial word |
| `OldBitVec.BitVec.Push` | src/bitvec.rs:167-178 | the contents gain `value` at the end and nothing else changes |
| `OldBitVec.BitVec.Pop` | src/bitvec.rs:180-191 | `None` on the empty vector; otherwise the last bit, and the contents lose exactly that bit, also when the now-empty word is dropped |
| `OldBitVec.BitVec.Get` | src/bitvec.rs:193-196 | requires `index < len`; the bit at `index` |
| `OldBitVec.BitVec.Set` | src/bitvec.rs:198-205 | requires `index < len`; bit `index` becomes `value` and no other bit changes |
| `OldBitVec.BitVec.IsEmpty` | src/bitvec.rs:211-213 | true exactly when the vector holds no bits |
| `OldBitVec.PushPop` | src/bitvec.rs:167-191 | pushing a bit and popping it returns `Some` of that bit and restores the contents |
| `PackedArray.Words64For` | src/array2/packed.rs:39 | `(len + 63) >> 6` is the least number of 64-bit words that hold `len` bits |
| `PackedArray.Packed.Contents` | src/array2/packed.rs:21-24 | the array holds exactly `len` bits, the padding of the last word excluded |
| `PackedArray.Packed.constructor` | src/array2/packed.rs:37-44 | requires `len <= usize::MAX - 63`; a fresh allocation of `(len + 63) >> 6` words for `len` bits |
| `PackedArray.Packed.SetAll` | src/array2/packed.rs:50-54 | every word of the allocation, padding included, and so every bit becomes `val` |
| `PackedArray.Packed.NotAssign` | src/array2/packed.rs:56-65 | every word is complemented, so every bit is complemented |
| `PackedArray.Packed.AndAssign` | src/array2/packed.rs:67-79 | requires equal lengths; every bit becomes the conjunction of the two bits at its index |
| `PackedArray.Packed.OrAssign` | src/array2/packed.rs:81-93 | requires equal lengths; every bit becomes the disjunction of the two bits at its index |
| `PackedArray.Packed.SlowGet` | src/array2/packed.rs:95-103 | requires `index < len`; the bit at `index` |
| `PackedArray.Packed.SlowSet` | src/array2/packed.rs:105-117 | requires `index < len`; bit `index` becomes `elem` and no other bit or padding changes |
| `PackedArray.Packed.CountOnes` | src/array2/packed.rs:121-142 | the number of set bits among the `len` bits, the padding of the last word masked off |
| `PackedArray.Packed.CountZeros` | src/array2/packed.rs:144-146 | set and clear bits add up to `len` |
| `PackedArray.SetAllThenCount` | src/array2/mod.rs:71-83 | after `set_all(true)` all `len` bits are set, after `set_all(false)` none, and `not_assign` then sets all of them again |
| `Binary.BitLift` | src/binary.rs:180-182 | over `Boolean`, lifting a slice of bools yields the same bits |
| `Binary.BitNot` | src/binary.rs:184-186 | a vector of the same length with every bit complemented |
| `Binary.BitOr` | src/binary.rs:188-191 | requires equal lengths; the bitwise disjunction |
| `Binary.BitAnd` | src/binary.rs:193-196 | requires equal lengths; the bitwise conjunction |
| `Binary.BitAdd` | src/binary.rs:198-201 | requires equal lengths; the bitwise exclusive or |
| `Binary.BitEqu` | src/binary.rs:203-206 | requires equal lengths; the bitwise equivalence |
| `Binary.BitLeq` | src/binary.rs:208-211 | requires equal lengths; the bitwise implication |
| `Binary.BitOpsDefaults` | src/boolean.rs:56-74 | the `and`, `equ` and `leq` of `Boolean` agree with the interface defaults built from `not`, `or` and `add`, and `bit_equ` is all ones exactly when the vectors are equal |
| `Binary.NotValue` | src/binary.rs:184-186 | as numbers, `bit_not` maps `v` to `2^len - 1 - v` |
| `Binary.NumLift` | src/binary.rs:222-224 | for `len <= 64` and a 64-bit `n`, the result has `len` bits and its value is `n` modulo `2^len` |
| `Binary.ValueInjective` | src/binary.rs:222-224 | two vectors of one length with the same value are equal, so `num_lift` is determined by the residue |
| `Binary.NumLiftResidue` | src/binary.rs:222-224 | `num_lift(len, n)` and `num_lift(len, m)` are equal exactly when `n` and `m` agree modulo `2^len` |
| `Binary.NumLiftValue` | src/binary.rs:222-224 | every vector of fewer than 64 bits is `num_lift` of its own value, the inverse direction |
| `Binary.NumAdd` | src/binary.rs:237-246 | requires equal lengths; the result has the same length and its value is the sum modulo `2^len` |
| `Binary.NumNeg` | src/binary.rs:226-235 | the result has the same length and its value is minus the input modulo `2^len` |
| `Binary.NumSub` | src/binary.rs:248-258 | requires equal lengths; the result has the same length and its value is the difference modulo `2^len` |
| `Binary.NumEqu` | src/binary.rs:260-268 | requires equal lengths; the single bit is set exactly when the vectors are equal, which is when their values are equal |
| `Binary.NumNeq` | src/binary.rs:270-274 | requires equal lengths; the single bit is set exactly when the vectors differ |
| `Binary.NumLeq` | src/binary.rs:276-284 | requires equal lengths; the single bit is set exactly when the first value is at most the second, as unsigned numbers |
| `Binary.NumLtn` | src/binary.rs:286-290 | requires equal lengths; the single bit is set exactly when the first value is less than the second |
| `Binary.ConcatValue` | src/binary.rs:213-220 | concatenating two vectors appends the second after the first, so the second supplies the more significant bits: `value(x) + 2^len(x) * value(y)` |
| `Binary.CheckBinary` | src/binary.rs:112-157 | the length checker yields the common length exactly when the two lengths are equal and fails its assertion otherwise |
| `Binary.CheckCompare` | src/binary.rs:159-167 | the length checker yields length 1 for a comparison exactly when the two lengths are equal |
| `Binary.Lengths` | src/binary.rs:137-139 | the lengths of the inputs, one per input, in order |
| `Binary.CheckerAgrees` | src/binary.rs:97-168 | wherever the checker succeeds it predicts the length of the `Boolean` result, and its `concat` is the total length |
| `Binary.NumLiftExample` | src/binary.rs:298-307 | `num_lift(4, 13)` and `num_lift(4, -3)` both equal `bit_lift([true, false, true, true])` |
| `Binary.ConcatExample` | src/binary.rs:309-317 | `concat(num_lift(4, 0x3), num_lift(4, 0xd))` equals `num_lift(8, 0xd3)` |
| `Binary.NumOpsExample` | src/binary.rs:319-329 | in eight bits `17 + 73` is 90, `-17` is `num_lift(8, -17)`, `17 - 73` is -56 and `73 - 17` is 56 |
| `Binary.NumRelExample` | src/binary.rs:331-343 | in eight bits `-5 == -5`, `-5 != -6`, `-5 <= -5`, `-6 <= -5`, not `-5 <= -6`, and `3 <= -6` unsigned |

## Left out

- The SAT back ends (`minisat`, `varisat`, `cadical`), the free Boolean algebra over solver literals and every solver call: foreign code.
- Memory management: `with_capacity`, `reserve`, `capacity()`, the allocation and `Drop` of `Packed`, and the `Vec` operations on words beyond their effect on the stored bits. A word store is a sequence of bits (or an array of bits for `Packed` and `Bits`).
- `usize` arithmetic is unbounded except where the source states a bound (`len <= usize::MAX - 31` for `Bits`, `len <= usize::MAX - 63` for `Packed`); an overflow of `size^arity` or of a product size in `usize` is not modelled.
- The `u32` line and column counters of both lexers are unbounded; only the `u32` overflow of integer literals is modelled.
- Character classes are ASCII; Unicode letters, digits and white space are not modelled.
- `OldLexers`: offsets count characters, where the source's `char_indices` counts UTF-8 bytes; they agree on ASCII text.
- `Parsers.Run`: the values of all parsers form one datatype where the source has one Rust type per parser. The position in an error is the number of characters left, not an address in the text.
- `Display`, `Debug` and the other formatting traits; `main.rs`, `progress.rs`, the `research` programs and the semantics and clone-search front ends: I/O and programs built on the solver.
- `tensor_lift` and the tensor operations that call into a logic other than `bool`.
- The `fold_all` and `fold_any` methods of `src/alg/relations.rs`, and `get_identity` of `src/alg/binary_relations.rs`.
- `range` and `is_surjective` of `src/alg/operations.rs`: they call `Relations::project`, which is not part of this model.
- Thin delegating wrappers: `src/alg/binary_relations.rs`, `src/alg/preservation.rs`, `src/alg/unary_operations.rs`, `src/adt/relations.rs`, `src/adt/operations.rs`, `src/math/taylor.rs`.
- The trivial one-element algebras (`Trivial` of `src/boolean.rs`, `src/alg/trivial_algebra.rs`): every operation returns `()`.
- `inv` of `ProductAlgebra`.
- `Signatures.Signature` has no row for its constructor: it only starts the empty list of arities.
- `Relations.GetDiagonal`: the closing `debug_assert_eq!` is stated by `Relations.DiagonalLastIndex` for `size >= 1` only. For `size == 0` it computes `0 - 1` in `usize`, which panics in a debug build.
- `Structure.Universe.Size` states only that a size is reported (`Some`): no universe built here lacks one. Its value is tied to membership by `Structure.Universe.SizeZeroIffEmpty`.
- The resize tests of `src/bitvec.rs:230-260` and `src/genvec/tests.rs` (90 pushes against one `resize` by 90, 77 pops against one `resize` by -77) follow from the contracts of `Push`, `Pop` and `Resize`. They are not stated as members of their own.

## Findings

| source | as written | input that shows it | evidently intended | confidence | as-written member | corrected member |
|---|---|---|---|---|---|---|
| src/core/bitvec.rs:63-93 | `pop` never drops a word, and `resize` fills only the partial word and the words it appends | push `true` 33 times, pop once, `resize(33, false)`: bit 32 reads `true` | the new bits equal the fill value | high, not executed | `CoreBitVec.ResizeAfterPopKeepsStaleWord` | `CoreBitVec.BitVec.Resize` |
| src/genvec/bitvec.rs:326-335 | `next_back` moves `end` back but reads the bit at `start` | the slice `[true, false]`: `next_back` yields `true` | it yields the bit at the new `end`, the last one | high, not executed | `GenVecBitVec.NextBackAsWrittenReadsFront` | `GenVecBitVec.BitSlice.NextBack` |
| src/core2/solver.rs:265-275 | `bool_and` and `bool_or` of `BitLogic` take the min and max of `elem1` with itself; through the defaults, `fold_all`, `fold_amo` and `cmp_equ` always give `TRUE`, `fold_any`, `fold_one` and `cmp_neq` always `FALSE`, `imp(a, b)` is `not a`, `maj(a, b, c)` is `b`, and `cmp_leq` and `cmp_ltn` give the last entry of the second sequence | `and(TRUE, FALSE)` is `TRUE`; `or(FALSE, TRUE)` is `FALSE`; `fold_all([FALSE])` is `TRUE` | the conjunction and disjunction that the doc comments promise | high, not executed | `Core2Solver.AndOrAsWrittenIgnoreSecond`, `Core2Solver.ImpAsWritten`, `Core2Solver.MajAsWritten`, `Core2Solver.FoldAllAsWritten`, `Core2Solver.CmpEquAsWritten`, `Core2Solver.CmpLeqAsWritten` | `Core2Solver.And`, `Core2Solver.Or`, `Core2Solver.FoldAll`, `Core2Solver.CmpEqu`, `Core2Solver.CmpLeq` |
| src/core2/solver.rs:345-347 | `BitIt::next` always returns `None` | a one-bit vector: `copy_iter` yields nothing | it yields every bit in order | high, not executed | `Core2Solver.BitItAsWrittenYieldsNothing` | `Core2Solver.BitItNext` |
| src/adt/boolean.rs:131-140 | `complement` shadows its argument with a fresh empty vector and reads its bit 0 | any one-bit element: the read is out of range and panics | the negation of the argument's bit | high, not executed | `BooleanDomain.ComplementAsWrittenPanics` | `BooleanDomain.Complement` |
| src/alg/product.rs:262-267 | `complement` emits only the complement of the first component | any element when `dom1` has at least one bit: the result has `bits0` bits, not `num_bits` | both components complemented | high, not executed | `Products.Product2.ComplementAsWrittenTooShort` | `Products.Product2.ComplementLift` |
| src/core/tensor.rs:65-72 | the guard `!self.dims.len() >= 2` is a bitwise not, true for every small rank | a shape of rank 1 passes the guard | `split2` asserts that the rank is at least 2 | high, not executed | `Tensors.Split2GuardAcceptsLowRanks` | `Tensors.Shape.Split2` |
| src/alg/functions.rs:105-121 | `polymer` has no guard for an empty domain and slices the first part of an empty element | domain size 0, arity 1: `part(elem, 0)` reads past the end | the empty result that `src/alg/operations.rs:78-80` returns | medium, not executed | `Functions.PolymerEmptyDomainDiffers` | `Functions.Polymer` |
| src/alg/operations.rs:150-158 | `get_projection` calls `polymer` with the unary identity but this operation's arity | arity 2, `coord` 0: the `assert_eq!` on the mapping length fails | the polymer of the unary identity with mapping `[coord]` | medium, not executed | `Functions.GetProjectionAsWrittenOnlyUnary` | `Functions.GetProjection` |
| src/structure.rs:220-228 | `ModuloInt::product` adds two `u32` values before reducing | size `2^32 - 1`, `a = b = 2^31`: the sum overflows | `(a + b) mod size` for all `a, b < size` | medium, not executed | `Structure.MulAsWrittenOverflows` | `Structure.Mul` |
