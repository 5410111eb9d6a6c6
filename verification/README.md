# Wolframe: the JSON codec, the image arithmetic and the connections

Wolframe is a server that keeps two libraries in its tree. This project models four of its
parts and proves what they promise. Every file is one module; `dafny verify dfyconfig.toml`
checks all of them.

**JSON (cJSON).** `Json`, `JsonText` and `JsonGrammar` define trees, the printed text of a tree,
and what the parser computes at a position of a text, malformed input included. `JsonPrinter`,
`JsonParser`, `JsonStrings` and `JsonMinify` are the C functions as methods on character buffers,
each proved to compute its definition within the memory it asks for. `JsonRoundTrip` proves that
parsing undoes printing, `JsonLiterals` that string literals mean what the standards say,
`JsonNumbers`, `JsonSyntax` and `JsonAccepted` that the parser accepts the texts of a grammar of its
own and nothing else, `JsonErrors` where it finds errors, `JsonLayout` what printed texts look like,
`JsonMinifyPieces` what minifying keeps of a text, `JsonMinifyParse` that its meaning is kept, and
`JsonMinifyTwice` when minifying again changes nothing. `JsonChain` and `JsonDuplicate` are about
the linked items themselves.

**Images (libpng).** `MulDiv` is the multiplication and division without floating point,
`FixedPoint` the one with it, `Chromaticity` and `GrayCoefficients` what is computed from it.
`Adam7` and `Composite` are macros, `GammaTable` a table, and `FpNumber`, `Digits`, `FixedAscii`
and `FormatNumber` read and write numbers. `Bits` holds the bit operations of C on naturals and
`CText` C strings in arrays.

**Connections.** `ConnectionLists` has the two kinds of lists as classes. `ConnectionSteps` is the
same code as a state machine that takes or gives back one mutex, or makes one access, at a time,
and `ConnectionAlone` runs its threads undisturbed. `Lifecycle` has the finite state machine of a connection and the driver that calls it.

**Content protocol.** `ContentHandler` is the handler that buffers input while the document type
is detected. The detector and the command handler are arbitrary functions of all they have seen.

## What the code does not keep

These are properties that the code or its comments suggest and that fail. For each there is a
lemma with an input, and a condition under which the code does keep it; but for the last one
the condition is exact.

- The integer branch of `png_muldiv` is not always the nearest integer (`MulDiv.NearestExactly`),
  is off for every divisor of one (`MulDiv.ByOneIsOff`), and can store 0 for a result of 2^32
  (`MulDiv.CarryIsLost`).
- The comment before the blue scale says that it cannot overflow. It can, for a white y below 5
  (`Chromaticity.BlueOverflows`, `Chromaticity.BlueOverflowsExactly`).
- Minifying twice is not always minifying once (`JsonMinifyTwice.TwiceDiffers`,
  `JsonMinifyTwice.MinifyTwiceExactly`), but for texts the parser accepts it is
  (`JsonMinifyTwice.AcceptedTwice`).
- The fixed format of `png_format_number` loses the zeros in front of the point of multiples of
  ten (`FormatNumber.FormatsDiffer`, `FormatNumber.FormatsAgree`).
- `unregister` tests its pointer without the mutex. If `handleStop` pops the connection between
  the test and the mutex, the counts are one short of the list
  (`ConnectionSteps.LateRemovalHappens`, `ConnectionSteps.ListAssertionsExactly`).
- If such a failed assertion does not end the program, as in a build without assertions, a later
  `decConnCount` finds a count of zero (`ConnectionSteps.ZeroCountHappens`). Before an assertion
  about a list has failed it never does (`ConnectionSteps.GlobalAssertion`), and behind that
  exactly if there have been at least as many late removals as there are connections to count down
  (`ConnectionSteps.GlobalAssertionExactly`).
- A JSON literal with an incomplete `\u` escape may be read beyond its closing quote, so that
  minifying changes what the text means (`JsonMinifyParse.MeaningChanges`) or cuts it
  (`JsonMinifyParse.IncompleteEscape`).

## Model

| member | source | states |
|---|---|---|
| JsonAccepted.AcceptedExactly | 3rdParty/libcjson/cJSON.c:262-278 | Where its literals are closed and have complete escapes, a text is accepted to its end if and only if it is a text of a grammar written down on its own (with any blanks, number spellings and escapes), and then the result is the value that text stands for |
| JsonSyntax.TextParses | 3rdParty/libcjson/cJSON.c:285-437 | Every text of the grammar, with any blanks around it, is accepted to its end as the one value that it stands for |
| JsonSyntax.ValueParses | 3rdParty/libcjson/cJSON.c:285-437 | The same for a value anywhere inside a text |
| JsonSyntax.OneValue | 3rdParty/libcjson/cJSON.c:285-437 | A text of the grammar stands for one value only |
| JsonNumbers.NumberParses | 3rdParty/libcjson/cJSON.c:92-107 | The digits W.F with the exponent X are read to their end as the number v for which v * 10^|F| is the integer WF, times 10^X, or divided by it for a negative exponent |
| JsonNumbers.DenotesOnce | 3rdParty/libcjson/cJSON.c:105 | There is one such number |
| JsonErrors.ErrorIsViable | 3rdParty/libcjson/cJSON.c:262-437 | Up to the error position a rejected text could have been accepted: some accepted text begins alike |
| JsonErrors.ErrorIsThere | 3rdParty/libcjson/cJSON.c:262-437 | Every text that is the same up to four characters behind the error position is rejected at the same position |
| JsonLayout.FormattedIsLaidOut | 3rdParty/libcjson/cJSON.c:346-505 | The formatted text is the layout that one pass over the tokens of the tree writes, with a line for each member and a tab for each open bracket |
| JsonLayout.UnformattedIsPlain | 3rdParty/libcjson/cJSON.c:346-505 | The unformatted text is the tokens side by side |
| JsonLayout.EscapeTable | 3rdParty/libcjson/cJSON.c:227-241 | The characters of the table of RFC 8259 are printed as a backslash and their letter, but for the slash, other control characters as \u00 and two digits, and all others as they are |
| JsonLayout.DecimalFirst | 3rdParty/libcjson/cJSON.c:122 | No printed number but zero begins with a zero |
| JsonRoundTrip.RoundTrip | 3rdParty/libcjson/cJSON.c:262-282 | For every plain tree (null, booleans, 32-bit integers, NUL-free strings, arrays and objects of any depth), formatted or not, parsing the printed text, with or without the demand that nothing follows, returns the tree and ends with the text |
| JsonRoundTrip.ParseUndoesPrint | 3rdParty/libcjson/cJSON.c:285-505 | At every nesting depth and with any suffix that cannot go on a number, parsing what was printed returns an equal tree and stops exactly at the suffix |
| JsonRoundTrip.ValueRoundTrip | 3rdParty/libcjson/cJSON.c:285-315 | The same for a printed value anywhere inside a text, by induction over the tree |
| JsonRoundTrip.IntRoundTrip | 3rdParty/libcjson/cJSON.c:92-122 | The decimal text of a 32-bit integer is read back as that integer, and reading ends behind it |
| JsonRoundTrip.StringRoundTrip | 3rdParty/libcjson/cJSON.c:153-246 | A quoted string is read back character by character, and both passes of the reader end at its closing quote |
| JsonRoundTrip.PrintIsInjective | 3rdParty/libcjson/cJSON.c:281-315 | Two trees with the same printed text are equal, whatever the depths and formats they were printed with |
| JsonLiterals.ParseStringAgrees | 3rdParty/libcjson/cJSON.c:153-210 | For every literal with complete escapes the result is the meaning of its units by section 7 of RFC 8259, section 2.2 of RFC 2781 and section 3 of RFC 3629 (zero code units and ill-paired surrogates denote nothing); the sizing pass ends at the same closing quote and has counted enough |
| JsonLiterals.DecodeAgrees | 3rdParty/libcjson/cJSON.c:164-204 | The decoding pass on the source of any units writes their meaning and ends behind the source |
| JsonLiterals.ShortEscapes | 3rdParty/libcjson/cJSON.c:172-200 | The letters of the table of section 7 of RFC 8259 stand for their code points, and any other letter for itself |
| JsonLiterals.HexDigits | 3rdParty/libcjson/cJSON.c:139-148 | The hexadecimal digits in either case have the values 0 to 15, and nothing else is one |
| JsonLiterals.HexValue | 3rdParty/libcjson/cJSON.c:139-149 | Four digits are a number in base 16, the highest first |
| JsonLiterals.MeasureAgrees | 3rdParty/libcjson/cJSON.c:158 | The sizing pass counts one for an unescaped character or short escape and five for a \u escape, and ends behind the source |
| JsonLiterals.MeaningFits | 3rdParty/libcjson/cJSON.c:158-205 | What the second pass writes is never longer than what the first pass has counted |
| JsonLiterals.Units | 3rdParty/libcjson/cJSON.c:166-203 | Every complete literal is the source of well-formed units |
| JsonLiterals.Utf8RoundTrip | 3rdParty/libcjson/cJSON.c:190-198 | The bytes of a code point, read back by section 3 of RFC 3629, give the code point |
| JsonLiterals.PairRoundTrip | 3rdParty/libcjson/cJSON.c:182-188 | Every code point above the basic plane comes from exactly the surrogate pair that section 2.2 of RFC 2781 gives for it |
| JsonStrings.ParseHex4 | 3rdParty/libcjson/cJSON.c:138-149 | The four digits with their shifts give the value of the code unit, and anything but four digits gives 0 without reading behind the text |
| JsonStrings.PutUtf8 | 3rdParty/libcjson/cJSON.c:190-198 | The falling-through switch, with its shifts, masks and first-byte marks, stores exactly the UTF-8 bytes of the code point and leaves the rest of the buffer alone |
| JsonStrings.PairBits | 3rdParty/libcjson/cJSON.c:187 | The masked, shifted and or-ed surrogate halves are the code point of the pair |
| JsonStrings.ParseStringBuffer | 3rdParty/libcjson/cJSON.c:153-210 | On buffers, where the code stays within the text: a null and the error position if there is no opening quote, otherwise a buffer of the counted length plus one that holds the decoded string and a NUL |
| JsonStrings.CompleteIsDefined | 3rdParty/libcjson/cJSON.c:153-210 | On every literal with complete escapes and a closing quote the code stays within the text and ends behind the quote |
| JsonStrings.PrintString | 3rdParty/libcjson/cJSON.c:213-246 | The buffer of exactly len+3 characters is filled to its last character with the quoted, escaped string and a NUL |
| JsonStrings.MeasureString | 3rdParty/libcjson/cJSON.c:158 | The counting loop returns what the sizing pass is specified to count, and stops at the closing quote |
| JsonPrinter.PrintValue | 3rdParty/libcjson/cJSON.c:300-315 | The allocated buffer holds the text of the value and a NUL; its size exceeds that by the stated slack, which is never negative |
| JsonPrinter.PrintArray | 3rdParty/libcjson/cJSON.c:346-401 | Empty or not, formatted or not: nothing is written beyond the computed length, and the buffer holds the text of the array |
| JsonPrinter.PrintObject | 3rdParty/libcjson/cJSON.c:440-505 | The same for objects, whose computed length has a share for every name, entry and tab |
| JsonPrinter.TextNulFree | 3rdParty/libcjson/cJSON.c:281-505 | No printed text has a NUL in it, so its C length is its length |
| JsonParser.ReadValue | 3rdParty/libcjson/cJSON.c:285-297 | The recursive parser returns exactly what the grammar functions say, values as well as errors with their position, for every text and position where the code stays within the text |
| JsonParser.ReadArray | 3rdParty/libcjson/cJSON.c:318-343 | The loop over the items of an array agrees with the recursive grammar |
| JsonParser.ReadObject | 3rdParty/libcjson/cJSON.c:404-437 | The loop over the members of an object agrees with the recursive grammar |
| JsonParser.ReadNumber | 3rdParty/libcjson/cJSON.c:92-111 | The digit loops compute the mantissa, scale and exponent that the grammar gives |
| JsonParser.ParseWithOpts | 3rdParty/libcjson/cJSON.c:262-278 | The whole parse, with its check for appended garbage, is that of the grammar |
| JsonMinify.MinifyInPlace | 3rdParty/libcjson/cJSON.c:579-594 | Editing the text in place leaves the minified text and a NUL at its front; the write index never passes the read index |
| JsonMinify.MinifyCommutesWithPrint | 3rdParty/libcjson/cJSON.c:281-282 | Minifying the formatted text of a plain tree yields its unformatted text |
| JsonMinifyPieces.MinifyKeeps | 3rdParty/libcjson/cJSON.c:579-594 | A text made of blanks, comments, literals and other characters is minified to its literals and other characters |
| JsonMinifyPieces.PiecesOf | 3rdParty/libcjson/cJSON.c:579-594 | Every text whose literals and comments are closed is made of such pieces |
| JsonMinifyPieces.CommentsCut | 3rdParty/libcjson/cJSON.c:588-589 | A text minifies like the text without its comments |
| JsonMinifyPieces.LineEndFirst | 3rdParty/libcjson/cJSON.c:588 | A comment to the end of the line ends at the first newline |
| JsonMinifyPieces.CommentEndFirst | 3rdParty/libcjson/cJSON.c:589 | A block comment ends at the first star with a slash behind it |
| JsonMinifyParse.MinifyKeepsMeaning | 3rdParty/libcjson/cJSON.c:579-594 | For every text that parses to its end, whose literals are closed and end at the same quote for parser and minifier, the minified text parses to its end with the same value |
| JsonMinifyParse.ValueKept | 3rdParty/libcjson/cJSON.c:285-297 | Wherever a value is read in the text, what is left of it after minifying is read as the same value |
| JsonMinifyParse.NumberLocal | 3rdParty/libcjson/cJSON.c:92-107 | A number is read the same in two texts that agree on its characters and go on with characters that cannot belong to it |
| JsonMinifyParse.CompleteCloses | 3rdParty/libcjson/cJSON.c:158-204 | A closed literal with complete escapes ends at the same quote for both |
| JsonMinifyParse.MalformedEscape | 3rdParty/libcjson/cJSON.c:178-180 | So can one with malformed escapes: a text that minifying leaves as it is |
| JsonMinifyParse.IncompleteEscape | 3rdParty/libcjson/cJSON.c:178-210 | Without that condition it fails: a text that parses, whose minified form runs out of the text |
| JsonMinifyParse.MeaningChanges | 3rdParty/libcjson/cJSON.c:178-210 | A text that parses, whose minified form parses to another value |
| JsonMinifyTwice.MinifyTwiceExactly | 3rdParty/libcjson/cJSON.c:579-594 | Minifying what has been minified changes nothing if and only if no slash outside literals and comments has a slash or star as its next character that is kept |
| JsonMinifyTwice.TwiceDiffers | 3rdParty/libcjson/cJSON.c:579-594 | Two slashes with a blank between them are minified to a comment, which is minified to nothing |
| JsonMinifyTwice.AcceptedTwice | 3rdParty/libcjson/cJSON.c:262-278 | For the texts of MinifyKeepsMeaning minifying twice is minifying once |
| JsonChain.ChildrenUnique | 3rdParty/libcjson/cJSON.c:508-509 | The pointers of a chain determine the sequence of its items |
| JsonChain.AddItemToArray | 3rdParty/libcjson/cJSON.c:513-518 | Refines appending to the sequence of children, with prev and next mirrored and no cycle |
| JsonChain.GetArraySize | 3rdParty/libcjson/cJSON.c:508 | Returns the length of the sequence |
| JsonChain.GetArrayItem | 3rdParty/libcjson/cJSON.c:509 | Returns the item at the index, the first one for a negative index and null behind the end |
| JsonChain.DetachItemFromArray | 3rdParty/libcjson/cJSON.c:523-524 | Refines removal at an index; the detached item has no neighbours any more |
| JsonChain.ReplaceItemInArray | 3rdParty/libcjson/cJSON.c:530-532 | Refines the update at an index; the replaced item has no neighbours any more |
| JsonDuplicate.Duplicate | 3rdParty/libcjson/cJSON.c:552-577 | The copy consists of new items only, is a proper tree of mirrored chains, and equals the original with all reference flags cleared; without recursion it is the item alone |
| JsonDuplicate.CopyHasChildren | 3rdParty/libcjson/cJSON.c:567-575 | Every item of a copy has its children as a chain of its own, linked both ways and ended |
| JsonDuplicate.ClearedIsEqual | 3rdParty/libcjson/cJSON.c:561 | Clearing changes nothing of a tree but the reference flags |
| MulDiv.MulDiv | 3rdParty/libpng/png.c:3166-3274 | The integer branch: fails for a zero divisor and exactly when the signed rounded quotient does not fit 32 bits, but stores 0 when rounding carries out of 32 bits |
| MulDiv.Product | 3rdParty/libpng/png.c:3224-3239 | The product of two magnitudes from 16-bit pieces is exact in two words, without any overflow |
| MulDiv.Divided | 3rdParty/libpng/png.c:3241-3267 | The shift-and-subtract loop leaves quotient and remainder of the 64-bit product |
| MulDiv.RoundedError | 3rdParty/libpng/png.c:3269-3271 | The magnitude misses the product by at most half the divisor, rounded up |
| MulDiv.NearestExactly | 3rdParty/libpng/png.c:3269-3271 | It is a nearest integer if and only if the divisor is even or the remainder is not its half rounded down |
| MulDiv.StoredError | 3rdParty/libpng/png.c:3154-3158 | The same two statements for the stored, signed result |
| MulDiv.BranchesAgree | 3rdParty/libpng/png.c:3180-3271 | The integer branch and floor(r + .5) agree if and only if the remainder is not that half, or the divisor is even and the result not negative |
| MulDiv.CarryIsLost | 3rdParty/libpng/png.c:3269-3281 | 65535 * 65537 / 1 rounds to 2^32 and is stored as 0 with success |
| MulDiv.ByOneIsOff | 3rdParty/libpng/png.c:3269-3271 | Multiplying by times/1 never returns the exact product of nonzero factors |
| FixedPoint.HalfUpError | 3rdParty/libpng/png.c:3183 | floor(r + .5) is at most half a divisor away, the upper half included |
| FixedPoint.HalfUpAntitone | 3rdParty/libpng/png.c:3303-3309 | A larger divisor never gives a larger rounded quotient |
| Chromaticity.DeterminantBound | 3rdParty/libpng/png.c:1387-1397 | The determinant of any three points of the triangle is at most 10^10 in magnitude |
| Chromaticity.SeventhsFit | 3rdParty/libpng/png.c:1425-1436 | Both products divided by 7 and their difference fit 32 bits, and the difference is within one of a seventh of the determinant |
| Chromaticity.XYZFromXy | 3rdParty/libpng/png.c:1231-1490 | Returns 0 or 1, never 2; 0 exactly for accepted chromaticities whose end points are representable, which it then has filled in |
| Chromaticity.Inverses | 3rdParty/libpng/png.c:1425-1457 | The part with the internal errors: succeeds exactly if the range checks and both scale checks pass |
| Chromaticity.BlueOverflowsExactly | 3rdParty/libpng/png.c:1459-1464 | The blue subtractions overflow if and only if white y is below 5, neither inverse is, and the exact red and green scales, 10^10 by the inverses, together exceed 2^31 |
| Chromaticity.BlueOverflows | 3rdParty/libpng/png.c:1459-1464 | Concrete chromaticities that pass all checks and overflow, contrary to the comment in the code |
| Chromaticity.AcceptedIsRepresentable | 3rdParty/libpng/png.c:1467-1488 | From a white y of 5 on, no later step can fail |
| Chromaticity.WhiteRecovered | 3rdParty/libpng/png.c:1398-1402 | From a white y of 5 on, the nine end-point values add up to the white scale, within three units |
| Chromaticity.ChromaticityRecovered | 3rdParty/libpng/png.c:1468-1488 | The end points of all three colors give back their chromaticities, within half a unit of their scales |
| Chromaticity.CramerY | 3rdParty/libpng/png.c:1378-1390 | The three determinants solve the equation of the y of red, green, blue and white exactly |
| Chromaticity.WhitePointRecovered | 3rdParty/libpng/png.c:1291-1295 | The Y of red, green and blue add up to 100000 and their X to the X of white, within an error given by white y, the determinant and the two inverses |
| Chromaticity.StandardError | 3rdParty/libpng/png.c:1404-1412 | For the chromaticities of sRGB that error is less than 5 units |
| GrayCoefficients.SharesSum | 3rdParty/libpng/png.c:2369-2374 | The three rounded shares add up to 32767, 32768 or 32769 |
| GrayCoefficients.ColorSpace.SetRgbCoefficients | 3rdParty/libpng/png.c:2356-2418 | An error is raised exactly if a luminance is negative or all are 0; otherwise the coefficients are in 0..32768, add up to 32768, and are the nearest shares except that the largest may be moved by one, green first, then red |
| GrayCoefficients.ColorSpace.Adjust | 3rdParty/libpng/png.c:2381-2398 | Moves at most one coefficient, a largest one, so that the sum is 32768 |
| Adam7.Partition | 3rdParty/libpng/png.h:2641-2674 | For every width and height the pixels of the image and the places of the seven pass images correspond one to one |
| Adam7.PixelsAddUp | 3rdParty/libpng/png.h:2664-2667 | The products of rows and columns of the seven passes add up to width times height |
| Adam7.MasksFollowTile | 3rdParty/libpng/png.h:2682-2691 | Row and column masks both hold for a pass exactly where the 8 by 8 tile of section 8.2 of the PNG Specification (Second Edition) has it |
| Adam7.InPassExactly | 3rdParty/libpng/png.h:2682-2691 | The mask macros hold exactly for the rows and columns on the grid of the pass |
| Adam7.RowsMap | 3rdParty/libpng/png.h:2664-2672 | A pass row maps to an image row that the mask accepts, invertibly, and is within the row count exactly if the image row is within the height |
| Adam7.ColsMap | 3rdParty/libpng/png.h:2666-2674 | The same for columns |
| Adam7.RowsStep | 3rdParty/libpng/png.h:2664-2667 | The counts grow by one exactly at rows and columns of the pass |
| Adam7.OffsetsAreSteps | 3rdParty/libpng/png.h:2644-2650 | The offset macros are the distances between neighbouring rows and columns of a pass |
| Adam7.CountsFit | 3rdParty/libpng/png.h:2664-2667 | Nothing wraps in 32 bits for sizes below 2^31 |
| Composite.TwoShifts | 3rdParty/libpng/png.h:2694-2703 | For every even base b and x up to (b-1)^2, dividing x + b/2 by b with one correction is dividing by b-1 with rounding |
| Composite.CompositeAgrees | 3rdParty/libpng/png.h:2708-2727 | Both variants of png_composite are the nearest integer to the mean, for all bytes, in 16 bits |
| Composite.Composite16Agrees | 3rdParty/libpng/png.h:2715-2732 | Both variants of png_composite_16 are the nearest integer to the mean, for all 16-bit values, in 32 bits |
| Composite.MixedBetween | 3rdParty/libpng/png.h:2706 | The mixture lies between its two colors and equals one of them at either end of alpha |
| GammaTable.Build16To8 | 3rdParty/libpng/png.c:3818-3877 | For any gamma function and shift, every cell of the table is assigned once, and holds 257 times the first 8-bit value whose bound is above the input of the cell |
| GammaTable.EveryPlace | 3rdParty/libpng/png.c:3818-3877 | Every row and column is the place of an input |
| GammaTable.EntryExactly | 3rdParty/libpng/png.c:3849-3863 | For a gamma function that rises, the entry of an input is 257 times n if and only if the input lies above the boundary to n-1 and not above the one to n, which are the values of gamma at 257i+128 |
| GammaTable.PlacesDiffer | 3rdParty/libpng/png.c:3866 | No two inputs have the same place |
| GammaTable.BoundFits | 3rdParty/libpng/png.c:3859-3862 | The bound is computed without overflow in 32 bits and ends within the table |
| GammaTable.LookupPlace | 3rdParty/libpng/png.c:4017-4033 | The reader's index is the place where the upper bits of the sample were stored |
| GammaTable.LookupMonotone | 3rdParty/libpng/png.c:4017-4033 | Looking up a larger sample never gives a smaller value |
| GammaTable.IdentityIsNearest | 3rdParty/libpng/png.c:3835-3850 | Without gamma and shift the table rounds to the nearest 8-bit value |
| FpNumber.CheckFpNumber | 3rdParty/libpng/png.c:2567-2689 | Started behind any beginning of a number, it reads on as far as some number can go on, keeps the state that describes what was read, and tells whether that is a number |
| FpNumber.CheckFpString | 3rdParty/libpng/png.c:2694-2704 | Accepts exactly [+-]?(D+ .? or D* . D+)([eE][+-]?D+)? up to the NUL or the end; the returned flags are those of its parts |
| FpNumber.Unambiguous | 3rdParty/libpng/png.c:2567-2689 | A text begins a number in one way only, so the flags are well defined |
| FpNumber.StuckIsFinal | 3rdParty/libpng/png.c:2593-2680 | Where the automaton stops, no number goes on with that character |
| FpNumber.Resume | 3rdParty/libpng/png.c:2567-2689 | Reading a first piece and then the rest from the saved state and index is reading all at once |
| FpNumber.StopsOnce | 3rdParty/libpng/png.c:2567-2689 | What is read is determined by the text |
| FixedAscii.AsciiFromFixed | 3rdParty/libpng/png.c:3064-3125 | Fails exactly if there is no room for 13 characters; otherwise the buffer holds the text of the number and a NUL and nothing behind its size is touched |
| FixedAscii.DenotesFp | 3rdParty/libpng/png.c:3064-3125 | The text of every 32-bit fp denotes exactly fp/100000 |
| FixedAscii.TextIsNumber | 3rdParty/libpng/png.c:3064-3125 | The text is a complete number of at most 12 characters whose fraction does not end with a zero |
| FixedAscii.TextIsAccepted | 3rdParty/libpng/png.c:2694-2704 | png_check_fp_string accepts the text |
| FixedAscii.SplitDigits | 3rdParty/libpng/png.c:3083-3095 | The loop splits off all digits, at most ten, and finds the lowest that is not zero |
| FormatNumber.FormatNumber | 3rdParty/libpng/pngerror.c:133-206 | For every format, number and buffer, the buffer ends with the text of the number and a NUL; where there is no room the front of the text is missing |
| FormatNumber.TextReadBack | 3rdParty/libpng/pngerror.c:163-186 | Read back in its base, decimal or hexadecimal, the text is the number; it has no zero at its front beyond the least count of digits |
| FormatNumber.FormatsAgree | 3rdParty/libpng/pngerror.c:152-200 | The fixed format and png_ascii_from_fixed give the same text if and only if the number is 0 or no multiple of 1000000 |
| FormatNumber.FormatsDiffer | 3rdParty/libpng/pngerror.c:152-200 | They differ for 1000000 |
| FormatNumber.DecimalDenotes | 3rdParty/libpng/pngerror.c:163-171 | The decimal formats denote the number, with the least count of digits they promise |
| ConnectionLists.SocketConnectionList.Push | src/connection.hpp:135-167 | A connection is appended and counted twice exactly if both limits allow it |
| ConnectionLists.SocketConnectionList.Remove | src/connection.hpp:169-182 | Both counts go down by one; the closing assertion holds exactly if the connection was in the list once, or the list was empty |
| ConnectionLists.SocketConnectionList.Pop | src/connection.hpp:184-203 | Takes the first connection and uncounts it |
| ConnectionLists.Connection.Unregister | src/connection.hpp:235-240 | Removes a connection that still has its list, and only then |
| ConnectionLists.Acceptor.HandleStop | src/acceptor.cpp:147-158 | Drains the list in order, signals and unregisters every connection, and gives back exactly the share of the list |
| ConnectionLists.RemovedCount | src/connection.hpp:177 | std::list::remove takes out every occurrence |
| ConnectionLists.RemovedOrder | src/connection.hpp:177 | The others are left, all of them and in their order |
| ConnectionSteps.EveryRun | src/connection.hpp:79-203 | Every state of every run, with any number of lists and threads, keeps the lock discipline, the count equation, the size equation and the limits |
| ConnectionSteps.BalancedKept | src/connection.hpp:135-203 | A step keeps: the global count is the sum of the local counts, plus pushes counted only globally, minus removals counted only globally |
| ConnectionSteps.SharedKept | src/connection.hpp:135-203 | A step keeps the same equation list by list |
| ConnectionSteps.SizesKept | src/connection.hpp:135-203 | A step keeps: a list has as many connections as counted, but for what the holder of its mutex has not made good and the removals that came too late |
| ConnectionSteps.LimitsKept | src/connection.hpp:79-95 | A step keeps both limits, if they are not zero |
| ConnectionSteps.LocksKept | src/connection.hpp:79-203 | A step keeps each mutex with the one thread that is between taking it and giving it back |
| ConnectionSteps.ContentsKept | src/connection.hpp:135-203 | A step keeps the lists free of duplicates and of connections of other lists |
| ConnectionSteps.AccountedKept | src/connection.hpp:169-203 | A step keeps: an admitted connection that is still registered is in its list, or being removed, or was popped |
| ConnectionSteps.NoDeadlock | src/connection.hpp:135-203 | While a thread is busy, some thread can go on |
| ConnectionSteps.RunsGoOn | src/connection.hpp:135-203 | No run ever comes to a deadlock |
| ConnectionSteps.ListAssertionsExactly | src/connection.hpp:161-198 | The assertions about a list hold in a run if and only if no removal has come too late to that list |
| ConnectionSteps.NotDrainedNotStale | src/connection.hpp:169-182 | A removal comes too late only in a list that pop has taken from |
| ConnectionSteps.GlobalAssertion | src/connection.hpp:98-103 | In every run that ends where an assertion about a list fails, decConnCount never finds a count of zero |
| ConnectionSteps.GlobalAssertionExactly | src/connection.hpp:98-103 | In every run, whatever has failed before, the count is not zero there if and only if there have been fewer late removals than there are connections in the lists and on the way |
| ConnectionSteps.EveryCheckedRun | src/connection.hpp:161-203 | Until an assertion about it fails, a list has seen no late removal but one that still goes on and has found other connections |
| ConnectionSteps.ZeroCountHappens | src/connection.hpp:98-103 | Where failed assertions do not end the program, a run of 41 steps in which decConnCount finds a count of zero |
| ConnectionSteps.LateRemovalHappens | src/connection.hpp:235-240 | A run of 35 steps from the start in which handleStop pops a connection between the test in unregister and the mutex, after which the assertion in remove fails |
| ConnectionAlone.PushRuns | src/connection.hpp:135-157 | The steps of a push that no other thread disturbs count and append the connection and admit it, unless one of the limits is reached: then nothing is changed |
| ConnectionAlone.RemoveRuns | src/connection.hpp:161-182 | The steps of an undisturbed removal take the connection out of the list and lower both counts by one, unless the list is empty |
| ConnectionAlone.DrainRuns | src/acceptor.cpp:147-158 | The steps of an undisturbed handleStop empty the list and give back exactly its share |
| ConnectionSteps.EmptyStays | src/acceptor.cpp:147-158 | A list that is empty stays empty in every step but that of a push that appends to it |
| ConnectionSteps.DrainGivesBack | src/acceptor.cpp:147-158 | When handleStop finds the list empty, the list has no share in the global count, unless a removal came too late |
| ContentHandler.Handler.NextOperation | src/contentOnlyProtocolHandler.cpp:93-252 | The answer of the command handler decides: Read gives READ, or CLOSE at the end of the input, Write(b) gives WRITE with the block b, Close gives READ and discards, or CLOSE at the end, and an exception gives CLOSE; before there is a command handler READ is returned exactly while the detection needs input, and otherwise CLOSE where it fails. All input is with the command handler when processing asks for more, and all its output has been sent before it is asked again |
| ContentHandler.Handler.PutInput | src/contentOnlyProtocolHandler.cpp:260-286 | Accepted exactly in the three states that read; it goes to the detector and the buffer, to the command handler, or nowhere |
| ContentHandler.Handler.GetOutput | src/contentOnlyProtocolHandler.cpp:295-309 | The next piece of the block, as large as block and space allow, is copied to its place and nothing else is changed |
| ContentHandler.Handler.PutEOF | src/contentOnlyProtocolHandler.cpp:254-258 | The end is passed on without bytes |
| ContentHandler.Handler.Conservation | src/contentOnlyProtocolHandler.cpp:93-309 | At any time the command handler has been given a prefix of the received bytes, once each and in order, and a prefix of its output has been sent, all of it when a block is done |
| ContentHandler.Handler.Process | src/contentOnlyProtocolHandler.cpp:177-217 | One visit to Processing: the buffer is replayed exactly when the answer is to read and it has not been replayed, and otherwise the answer decides the result and the next state |
| Lifecycle.EveryRun | src/wolframeHandler.cpp:277-434 | In every run at most one CLOSE and one BYE are issued, and only NOOP comes behind the CLOSE |
| Lifecycle.UndisturbedSession | src/wolframeHandler.cpp:277-357 | Without a signal a new connection says hello, begins a read with a timeout, and then does what the protocol handler answers up to and including the first CLOSE; the protocol handler is called exactly in between |
| Lifecycle.FarewellFollows | src/wolframeHandler.cpp:299-321 | Behind signals the next operation is CLOSE if one of them is an error, and otherwise the BYE of the last one, timeout or shutdown, with its text |
| Lifecycle.DeniedSession | src/wolframeHandler.cpp:314-322 | Without a signal a denied connection says that access is denied, and then closes |
| Lifecycle.SignalCloses | src/wolframeHandler.cpp:377-434 | After a signal in any state but the last, CLOSE is issued by the second further call of nextOperation, whatever else happens |
| Lifecycle.ForbiddenIsKeptOut | src/wolframeHandler.cpp:186-207 | A connection that setPeer has denied never calls the protocol handler |
| Lifecycle.WolframeConnection.SetPeer | src/wolframeHandler.cpp:186-207 | Without authorization the connection starts as a forbidden one, otherwise as a new one |
| Lifecycle.WolframeConnection.NextOperation | src/wolframeHandler.cpp:277-357 | One call is one event of the run, with the message of the state; only the state of the command handler asks the protocol handler |
| Lifecycle.WolframeConnection.SignalOccured | src/wolframeHandler.cpp:377-434 | A signal is one event of the run; an interrupted session keeps the marker of its protocol |
| Lifecycle.WolframeConnection.NetworkInput | src/wolframeHandler.cpp:361-374 | Input reaches the protocol handler only in its state |
| Lifecycle.Connection.Safe | src/connectionBase.hpp:125-345 | What all interleavings of completions, timeouts and signals keep: one CLOSE, one BYE, nothing behind the CLOSE, until then an outstanding read or write, and at most one shutdown, posted or done, of a connection that is no longer registered |
| Lifecycle.Connection.NextOperation | src/connectionBase.hpp:125-184 | Each operation of the handler is started as what it is, a read with a timeout with a timer; CLOSE unregisters and posts one shutdown |
| Lifecycle.Connection.HandleRead | src/connectionBase.hpp:256-269 | A completed read passes its input or its error on and asks for the next operation |
| Lifecycle.Connection.HandleWrite | src/connectionBase.hpp:273-285 | A completed write passes its error on and asks for the next operation |
| Lifecycle.Connection.HandleShutdown | src/connectionBase.hpp:335-348 | The socket is still open when the posted shutdown closes it, and no other shutdown is outstanding then |
| Lifecycle.Connection.HandleTimeout | src/connectionBase.hpp:289-301 | A wait that is over signals the timeout and asks for the next operation, a cancelled one changes nothing but the number of waits |
| Lifecycle.Connection.SetUnregistered | src/acceptor.cpp:153-157 | An acceptor that stops takes the connection out of its list at any time, before any CLOSE, and everything that is kept stays kept |
| Lifecycle.Connection.HandleSignal | src/connectionBase.hpp:325-331 | A signal from above terminates and asks for the next operation |
| Bits.AndAppend | 3rdParty/libcjson/cJSON.c:187-198 | Bitwise and works on low and high bits separately |
| Bits.OrDisjoint | 3rdParty/libcjson/cJSON.c:187-196 | Numbers without a common bit are or-ed by adding |

## Left out

- Memory: allocation failures and the release of memory are not modelled, and neither is the
  overflow of an `int` length by a text of more than 2^31 characters.
- Numbers that are no 32-bit integers: the parser takes them over the reals, but printing them
  (`%.0f`, `%e`, `%f`) and the range of the cast to `int` are not modelled.
- JsonStrings.ParseStringBuffer: requires that the code stays within the text and its buffer, which
  some literals with incomplete escapes make it leave. The grammar functions mark exactly these
  cases as undefined, and the methods of JsonParser leave them out, too.
- JsonMinify.MinifyInPlace: requires closed literals and comments, since the C code leaves the text
  otherwise.
- JsonMinifyParse.MinifyKeepsMeaning: requires closed literals that end at the same quote for both
  passes and the minifier; some other texts, such as `["\u12"ab","\u12"cd"]`, keep their meaning
  by accident.
- JsonPrinter.PrintNumber: covers the branch for integers, whose text is at most 20 characters long.
- Lookup, removal and replacement by name, which compare names without regard to case, and the
  creation of items, references and typed arrays.
- The comparison of the double branch of `png_muldiv` with exact arithmetic: `floor(r + .5)` is
  taken over the rationals, without the rounding of a product beyond 53 bits.
- Signed overflow in C is undefined where `png_muldiv` negates the least integer, shifts 1 by 31
  or adds to a signed result, and where the blue scale overflows; the model takes 32-bit two's complement.
- The gamma functions themselves, the other gamma tables, ICC profiles and all error texts.
- GammaTable.Build16To8: the table of tables is one array with two dimensions.
- Addition and removal of whole lists in the global list.
- ConnectionSteps.EveryRun: counts are integers that may go below zero in a run with late removals,
  where the code would wrap, and go on where an assertion fails; the runs of
  `ConnectionSteps.GlobalAssertion` end where one about a list does.
- ConnectionSteps.LateRemovalHappens: a connection is pushed once, and its own calls of unregister
  do not overlap, as they come from its strand.
- Sockets, TLS, timers as wall-clock time, logging and the scheduling of strands: their completions
  are calls that may come in any order.
- Lifecycle.Connection.NextOperation: the abort on a null or empty block of the protocol handler is
  not modelled, and an operation is started without its data.
- ContentHandler.Handler.PutEOF: requires a command handler, which exists once the document type is
  detected.
- ContentHandler.Handler.PutInput: requires that CLOSE has not been returned; the command handler
  does not raise exceptions when it is given input.
- ContentHandler.Handler.Start: the trimming and checking of the argument string and the chunk size
  suggested to the command handler are not modelled.
- Configuration, modules, databases and the command handlers.
