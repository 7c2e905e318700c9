# A model of the receiver's algorithms

An AirPlay receiver is mostly sockets and callbacks, but it rests on algorithms with exact promises: a
ring buffer that must play packets in order over wrapping sequence numbers, a property list codec, long
division, scalar and field arithmetic for Ed25519 and Curve25519, AES with streaming counters, SHA-512
buffering, and an incremental HTTP parser.  This project models them in Dafny and proves those promises.
Code that changes objects or arrays in place is a class or a method over arrays, proved against a
function or a number it must produce; code that only computes is a function.

`dafny verify dfyconfig.toml` checks everything.  Shared files: `Arith`, `Positional`, `SignedDigits`
(numbers in positional notation), `Bytes`, `BigEndian`, `Options`.

## The parts and their main results

**Audio jitter buffer** (`RaopStream`, `RaopBuffer`).  The specification is a map from unbounded packet
numbers to packets.  `RaopBuffers.RaopBuffer` has the 512 slots and the 16-bit sequence numbers;
`Valid()` says that a slot is available exactly for the numbers waiting in the window, and every method
is the operation on the map; it also holds the history of the buffer, which every method continues.
`RunDelivers` is about every run of queue, dequeue and flush calls: what is played since the last start is
the accepted packets in order, with silence in the gaps.  `RunPatient` says how long a gap is waited for:
if all dequeues of a run ask for resends, silence takes the place of a packet only after one 511 numbers
ahead was accepted, and `PlayedInTurn` that a packet that comes before then is played.  `HandleResends`
asks for exactly the missing run.  Two results differ from what one might expect: while the buffer is empty a resend request is made from the numbers a flush
left behind, and an accepted packet 512 or more ahead restarts the window and drops what waited.

**Binary property lists** (`Plist`, `Utf`, `UtfScalars`, `HashTable`, `BplistFormat`, `BplistSerialize`,
`BplistWriter`, `BplistParser`, `BplistRoundTrip`, `BplistStandard`, `BplistConforms`, `PlistDict`,
`NodeList`).  `BinaryRoundTrip`: parsing what was printed gives an equal tree, whatever the hash of nodes,
although equal nodes share an object.  `BplistStandard` describes the published format on its own, with
the bytes of markers and trailer written out: `ConformingRead` says that every such file is read as the
tree it holds, and `WrittenConforms` that what is printed is such a file.
UTF-8 to UTF-16 and back is the identity exactly on well-formed text; `OverlongWrong` and `BeyondWrong`
show what happens to the rest.  The parser ends on arbitrary bytes because the path of indices is always
without repetition.  The index of a dictionary agrees with its linked list for every history of set and
remove.  That list keeps its links except when a node is put before the first one, exactly as `Insert`
says; `ReplaceItem` shows that a dictionary never does that.

**Long integers** (`BigInt`, `QuotientDigit`, `BigDivide`, `BigMultiply`, `BigModular`, `BigPower`).
`Divide` is exact with one correction and at most one add-back.  `RegularMultiply` returns exactly the
partial products it keeps, and `Barrett` exactly what follows from them: the result is reduced if and only
if the estimate is the quotient or one less.  `BarrettNotReduced` and `BarrettNotReducedEither` are
arguments for which it is not.  `AmpleSuffices` is a test on the two top components that rules this out, and
products of residues pass it unless the top component of the modulus is 1 or 0xFFFFFFFE; so for all other
moduli and a reduced base `ModPower` is exact.

**Scalars and group elements** (`Limbs`, `ScalarReduce`, `ScalarBytes`, `Scalars`, `AbelianGroups`,
`Slide`, `GroupElements`, `Signatures`).  `ScReduce` and `ScMulAdd` return the remainder by the group
order, with every intermediate value in 64 bits.  The curve is an arbitrary abelian group given by its
operations: `DoubleScalarMult` and `ScalarMultBase` compute the right multiples in it, and
`SignaturesVerify` says that every signature is accepted.  `AcceptedIff` says that nothing else is:
accepted is exactly what satisfies s B = R + h A; `SecondHalfUnique` draws the conclusion that the second
half of a signature with a reduced scalar cannot be changed.

**Field elements and Curve25519** (`FieldLimbs`, `FieldProduct`, `FieldReduce`, `FieldBytes`, `FeBytes`,
`Ladder`, `Reciprocal`, `Curve25519`).  Products keep the number modulo 2^255 - 19 and the bounds of the
limbs; `FContract` and `FeToBytes` write the least representative, by two different algorithms.  `Donna`
is the whole of `curve25519_donna`: from a secret and a coordinate to the coordinate of the multiple.
The points are an abelian group with a relation between points and projective x-coordinates; that the
doubling and differential addition of y^2 = x^3 + 486662 x^2 + x are those of the group is a hypothesis
(`Curve25519.Montgomery`), and `StepIsCurve` that the code computes them.  A comment in
`fcontract` says that the first pass borrows at most one through the last limb, so that limb 0 stays above
-20.  `LastLent` and `FirstLimb` say exactly when that is so; `ThreeBorrowed` is an input with three
borrows, and the result is right all the same.

**AES and streams** (`AesTables`, `AesWords`, `AesBlock`, `AesCtx`, `AesMatrix`, `AesField`, `Ctr`,
`Sha512`).  `AesField` has the definitions of FIPS 197 in GF(2^8): `SubstitutionIs` says that the table is
the affine map of the inverse for all 256 bytes, and the mixing, the shifts, the round constants and the
words of the key schedule are those of the standard.  `CbcThereAndBack` starts from a key and rests on the equivalent
inverse cipher: the packed word trick is the inverse mixing and distributes over the round keys.  The byte
matrix computes the same block function and key schedule, and `InvCipher` inverts it without converted
keys, by bitwise products.  Both counter wrappers produce one keystream however the data is cut,
and SHA-512 the digest of the concatenation.

**HTTP requests** (`HttpSyntax`, `HttpFold`, `HttpSim`, `HttpTrack`, `HttpExecute`, `HttpCuts`,
`HttpBody`, `HttpNames`, `HttpHeaders`, `HttpMethods`, `HttpLine`, `HttpRequest`, `HttpMessage`).  `Fold` reads one byte at a time; `Execute` has the bulk loops, marks and header size counter
of the original.  They agree exactly if no character that is not allowed in a header value is `Hidden`,
that is, passed over by the search for the end of the line.  In a chunk size, bytes from 128 on count as
the digit 0, since only 128 entries of the table at lib/http_parser.c:220-229 are written out.  `Feed`
concludes that cuts do not matter, and `CutDecidesRefusal` that they do when a byte is hidden.  The size limit depends on the cuts; it is not
reached if twice the bytes fit.  What the parser reads is `RequestRead`: a request of a method, a target, a
version, headers and a body of the announced decimal length, of chunks or of none comes out as it is
written, and `Receive` joins that with `Feed`: in whatever pieces it arrives.

## Reading the contracts

`Value(base, digits)` is the number of little-endian digits, `SignedValue` the same for signed digits,
`LimbValue` and `Sum` that of limbs of 21 and of 26 and 25 bits.  `Pow(base, n)` is the power.
`Crypted(cipher, start, pos, data)` is data under the keystream of the counter `start` from position
`pos` on.  `Erase` forgets the addresses of nodes.  `Agrees` compares the outcome of parser calls with a
fold: error and number of bytes, and without an error all fields and the merged data callbacks.
`PowerOf` compares remainders; `Congruent` is a difference that is a multiple of 2^255 - 19.  `Times` and `Mul` are multiples in a group.

## Model

| member | source | states |
|---|---|---|
| BigInts.BigInt.Add | lib/crypto/bigint.c:276-304 | The sum of the two numbers, without a leading zero component; the operand is only extended with zeros. |
| BigInts.BigInt.Subtract | lib/crypto/bigint.c:315-345 | The difference; when the operand is larger, the flag is set exactly then and the result is the difference modulo the radix to the power of the size. An operand that was already trimmed and no longer comes back unchanged. |
| BigInts.BigInt.IntMultiply | lib/crypto/bigint.c:350-373 | The product with one component, with no carry lost. |
| BigInts.BigInt.IntDivide | lib/crypto/bigint.c:509-524 | The quotient by one component, rounded down. |
| BigInts.BigInt.Trim | lib/crypto/bigint.c:1193-1203 | The same number without leading zero components. |
| BigInts.Compare | lib/crypto/bigint.c:1025-1062 | 1, 0 or -1 exactly as the first number is greater than, equal to or less than the second. |
| QuotientDigit.HalfRadix | lib/crypto/bigint.c:408 | The normalising factor makes the top component of the divisor at least half the radix. |
| QuotientDigit.ShortEstimate | lib/crypto/bigint.c:445 | With one component, the first estimate of a quotient digit is the digit or one more. |
| QuotientDigit.EqualTops | lib/crypto/bigint.c:439-442 | When the top components are equal, the radix minus 1 is the digit or one more, so that no correction is needed. |
| QuotientDigit.LongEstimate | lib/crypto/bigint.c:445-458 | With the test on the second component, the estimate is the digit or one more: Theorem B of Knuth, TAOCP volume 2, section 4.3.1, for one correction only. |
| BigDivide.TriedDigitNear | lib/crypto/bigint.c:439-459 | The digit the loop tries is the digit of the quotient or one more, and it fits in one component. |
| BigDivide.DivideWindow | lib/crypto/bigint.c:435-488 | One turn of the loop takes the exact quotient digit: what is left of the window is its remainder, after at most one add-back. |
| BigDivide.DivideLoop | lib/crypto/bigint.c:433-489 | The loop splits the dividend into quotient times divisor plus a remainder that is less than the divisor. |
| BigDivide.Normalise | lib/crypto/bigint.c:413-431 | Both numbers are multiplied by the same factor, and the dividend has one more component than quotient and divisor together need. |
| BigDivide.Denormalise | lib/crypto/bigint.c:494-503 | Scaling both numbers keeps the quotient and scales the remainder. |
| BigDivide.Divide | lib/crypto/bigint.c:386-504 | Exactly the quotient rounded down, or in reduction mode exactly the remainder; the modulus and its normalised copy come back unchanged. |
| BigMultiply.MultiplyRow | lib/crypto/bigint.c:830-853 | One row adds the component times the components from the row's start on; with an inner limit only components from that limit on may differ. |
| BigMultiply.RegularMultiply | lib/crypto/bigint.c:811-859 | Exactly the sum of the partial products an outer limit keeps, the whole product without one; with an inner limit too, congruent to it modulo that power of the radix, for every pair of limits. |
| BigMultiply.TruncatedBounds | lib/crypto/bigint.c:831-840 | What an outer limit drops is not negative and at most one limit power for every row cut short. |
| BigMultiply.NothingDropped | lib/crypto/bigint.c:831-840 | A limit of at most 1, or one as long as the first number, drops nothing. |
| BigMultiply.OneDropped | lib/crypto/bigint.c:831-840 | A limit of 2 drops the product of the two lowest components and nothing else. |
| BigMultiply.DoubledSum | lib/crypto/bigint.c:964-984 | Twice a product plus a component plus a carry: the two overflow flags lose nothing. |
| BigMultiply.SquareRow | lib/crypto/bigint.c:958-989 | One row adds the square of its component and twice its products with the components above. |
| BigMultiply.RegularSquare | lib/crypto/bigint.c:946-994 | The square of the number. |
| BigMultiply.CompRightShift | lib/crypto/bigint.c:561-583 | Division by a power of the radix, rounded down. |
| BigMultiply.CompLeftShift | lib/crypto/bigint.c:588-612 | Multiplication by a power of the radix. |
| BigModular.Modulus.constructor | lib/crypto/bigint.c:748-779 | The modulus, its normalised copy and the Barrett constant, the power of the radix divided by the modulus. |
| BigModular.CompMod | lib/crypto/bigint.c:1249-1259 | The remainder by a power of the radix. |
| BigModular.BarrettQuotient | lib/crypto/bigint.c:1283-1292 | A quotient estimated through a product that is too small by at most one unit of the dropped part leaves less than four moduli. |
| BigModular.EstimateQuotient | lib/crypto/bigint.c:1283-1287 | The estimated quotient is what the kept partial products of the top of the argument with the reciprocal give, for every size; it leaves between 0 and four moduli. |
| BigModular.EstimateFits | lib/crypto/bigint.c:1283-1287 | That number is never above the quotient and less than four below the argument in units of the modulus, although low partial products are dropped. |
| BigModular.EstimateOfShort | lib/crypto/bigint.c:1283-1287 | For an argument of at most 2k - 2 components, or a modulus of at most two, nothing is dropped in the estimate. |
| BigModular.AmpleSuffices | lib/crypto/bigint.c:1283-1287 | If R + t (u + 2) <= R t for the top component t of the modulus and the component u of the argument at place 2k - 1, R being the radix, the estimate is the quotient or one less. |
| BigModular.BarrettNear | lib/crypto/bigint.c:1283-1287 | The same on numbers: it suffices that the three roundings and the dropped products together are worth at most one unit. |
| BigModular.ResiduesAmple | lib/crypto/bigint.c:1345-1432 | Products of two reduced numbers meet that test for every modulus whose top component is neither 1 nor 0xFFFFFFFE. |
| BigModular.SubtractEstimate | lib/crypto/bigint.c:1288-1292 | The difference of the two truncated products is the exact difference of the full numbers. |
| BigModular.ReduceOnce | lib/crypto/bigint.c:1294-1298 | The final subtraction takes the modulus away at most once, so less than three moduli are left of four. |
| BigModular.Barrett | lib/crypto/bigint.c:1267-1301 | For moduli of every size exactly the argument less the estimated multiple, less one modulus if that fits; so it is reduced if and only if the estimate is the quotient or one less, and the remainder if the test on the two top components holds or the argument is so long that division is used. In every case it is congruent to the argument and below three moduli. |
| BigModular.QuotientNear | lib/crypto/bigint.c:1294-1298 | Less than two moduli are left exactly if the estimate is at most one below the quotient. |
| BigModular.BarrettNotReduced | lib/crypto/bigint.c:1294-1300 | A modulus of two components and an argument for which one final subtraction is not enough. |
| BigModular.BarrettNotReducedEither | lib/crypto/bigint.c:1294-1300 | The same for a modulus of three components, where the estimate drops a partial product too. |
| BigPower.ExpBitIsOne | lib/crypto/bigint.c:1152-1167 | The asked bit of the exponent. |
| BigPower.FindMaxExpIndex | lib/crypto/bigint.c:1127-1146 | No bit of the exponent is above the index, and only zero has none. |
| BigPower.ModPower | lib/crypto/bigint.c:1345-1432 | For every exponent, every modulus whose top component is neither 1 nor 0xFFFFFFFE and every reduced base, exactly the power modulo the modulus; for all other bases and moduli a congruent number below three moduli. |
| Utf.UnitsAt | lib/plist/bplist.c:1091-1152 | The conversion to UTF-16 never reads beyond the text. |
| Utf.WriteUtf16 | lib/plist/bplist.c:1091-1152 | The units one after the other until a byte that starts no sequence. |
| Utf.ReadUtf16 | lib/plist/bplist.c:378-449 | The bytes of the units one after the other, with surrogates held until their second half comes. |
| Utf.OverlongWrong | lib/plist/bplist.c:1115-1121 | A four-byte sequence for a character below U+10000 comes back as other bytes. |
| Utf.BeyondWrong | lib/plist/bplist.c:1115-1121 | A four-byte sequence beyond U+10FFFF comes back as nothing. |
| Utf.NeverProduced | lib/plist/bplist.c:378-449 | No text read from UTF-16 starts with an encoded surrogate or a character beyond U+10FFFF. |
| Utf.RoundTrip | lib/plist/bplist.c:1091-1152 | UTF-8 to UTF-16 and back is the identity exactly on well-formed UTF-8 (RFC 3629, section 3; RFC 2781, section 2). |
| UtfScalars.TextWritten | lib/plist/bplist.c:1091-1152 | The text of any code points is written as their UTF-16 units, surrogate pairs included, by the definitions of RFC 3629 and RFC 2781. |
| UtfScalars.TextRead | lib/plist/bplist.c:378-449 | The UTF-16 units of any code points are read as their UTF-8 bytes. |
| UtfScalars.WellFormedIffScalars | lib/plist/bplist.c:1091-1152 | The text that survives both conversions is exactly the UTF-8 of code points. |
| HashTables.HashTable.Lookup | lib/plist/hashtable.c:94-109 | The value of the first entry with an equal key in the bucket of the key, or none. |
| HashTables.HashTable.Insert | lib/plist/hashtable.c:58-92 | Only the bucket of the key changes: its first entry with an equal key gets the value, or a new entry comes first. |
| HashTables.HashTable.Remove | lib/plist/hashtable.c:111-140 | Only the bucket of the key changes: its first entry with an equal key goes. |
| HashTables.FoundAt | lib/plist/hashtable.c:58-140 | Lookup, insertion and removal meet the same entry: the first one with an equal key. |
| BplistFormat.NeededBytesEnough | lib/plist/bplist.c:212-216 | The width chosen for offsets and references holds every number it is chosen for. |
| BigEndians.BigEndianAt | lib/plist/bplist.c:199-209 | Byte i of n is the one with i bytes of greater weight before it: the most significant comes first. |
| BplistFormat.ReadBigEndian | lib/plist/bplist.c:199-209 | A number written in n bytes is read back from n bytes. |
| BplistFormat.IntBack | lib/plist/bplist.c:1022-1034 | An integer is read back from its marker, its width and its bytes. |
| BplistFormat.HeaderBack | lib/plist/bplist.c:643-674 | A marker with its size, short or followed by an integer object, is read back with the place of what follows. |
| BplistFormat.UnitsBack | lib/plist/bplist.c:451-473 | UTF-16 units are read back from their bytes. |
| BplistFormat.TextBack | lib/plist/bplist.c:1398-1408 | Text is read back, whether it was stored as ASCII or as UTF-16. |
| BplistFormat.UidBack | lib/plist/bplist.c:1209-1222 | An identifier below 2^32 is read back from 1, 2 or 4 bytes. |
| BplistFormat.LeafBack | lib/plist/bplist.c:633-785 | Every object without children is read back from its bytes as an equal node. |
| BplistParser.DepthBound | lib/plist/bplist.c:813-833 | The indices on the path of the recursion are different and below the number of objects, so the recursion is no deeper than that number. |
| BplistParser.StepDown | lib/plist/bplist.c:813-838 | An index that is not on the path may be added to it. |
| BplistParser.BplistData.ParseBinNodeAtIndex | lib/plist/bplist.c:787-840 | The subtree at an index, or nothing for an index out of range or on the path; the path of indices in use is the same afterwards. |
| BplistParser.BplistData.ParseBinNode | lib/plist/bplist.c:633-785 | The node at an offset by its marker, with its children, as the function that BplistStandard.ReadsAt ties to the published markers; the path is the same afterwards. |
| BplistParser.BplistData.ParseArrayNode | lib/plist/bplist.c:571-613 | The children of an array in the order of their references, or nothing as soon as one fails. |
| BplistParser.BplistData.ParseDictNode | lib/plist/bplist.c:492-569 | Keys and values in turn, from the two rows of references, or nothing as soon as one fails or a key is not text. |
| BplistParser.PlistFromBin | lib/plist/bplist.c:842-935 | On arbitrary bytes the parser ends, with the tree the offset table describes or with nothing; for files of the published format that tree is the one of BplistConforms.ConformingRead. |
| BplistSerialize.Serializer.SerializePlist | lib/plist/bplist.c:989-1018 | The objects in order of their first visit, where a node equal to an earlier one gets its number. |
| BplistSerialize.NumberIsSame | lib/plist/plist.c:735-792 | The number found for a node is that of an equal node. |
| BplistSerialize.TreeNumbered | lib/plist/bplist.c:989-1018 | For every tree of separate containers the root is object 0 and every node of the tree has the number of an equal object, whatever the hash does. |
| BplistWriter.ByteArray.WriteInt | lib/plist/bplist.c:1022-1034 | The marker with the width and the bytes of the integer. |
| BplistWriter.ByteArray.WriteMarker | lib/plist/bplist.c:1070-1079 | The marker with the size, or with 15 and the size as an integer object. |
| BplistWriter.ByteArray.WriteRawData | lib/plist/bplist.c:1070-1079 | Marker, size and bytes. |
| BplistWriter.ByteArray.WriteUnicode | lib/plist/bplist.c:1154-1163 | The number of UTF-16 units and the units in big-endian order. |
| BplistWriter.ByteArray.WriteUid | lib/plist/bplist.c:1209-1222 | An identifier in the least of 1, 2 and 4 bytes that holds it. |
| BplistWriter.ByteArray.WriteText | lib/plist/bplist.c:1398-1408 | Text as bytes if it is ASCII, else as UTF-16. |
| BplistWriter.ByteArray.WriteArray | lib/plist/bplist.c:1165-1182 | The references to the objects of the children, in their order. |
| BplistWriter.ByteArray.WriteDict | lib/plist/bplist.c:1184-1207 | First the references to all keys, then those to all values. |
| BplistWriter.ByteArray.WriteObject | lib/plist/bplist.c:1376-1427 | The image of one object after what was there before. |
| BplistWriter.TreeClosed | lib/plist/bplist.c:989-1018 | Every child of a numbered object is numbered. |
| BplistWriter.WriteObjects | lib/plist/bplist.c:1367-1427 | All images one after the other, with the place where each starts. |
| BplistWriter.WriteOffsets | lib/plist/bplist.c:1433-1440 | The offset table. |
| BplistWriter.PlistToBin | lib/plist/bplist.c:1238-1459 | Magic, images, offset table and trailer with the widths they use, as the function that BplistConforms.WrittenConforms ties to the published format. |
| BplistRoundTrip.LayoutHolds | lib/plist/bplist.c:1367-1452 | The offset table of a written file leads to the image of every object, below the table. |
| BplistRoundTrip.ObjectBack | lib/plist/bplist.c:787-840 | Parsing the object of a number, with only larger subtrees on the path, gives an equal subtree; the ancestor check never fires. |
| BplistRoundTrip.BinaryRoundTrip | lib/plist/bplist.c:842-935 | Parsing what was printed for a tree gives an equal tree, for every tree of dictionaries, arrays, booleans, 64-bit integers, 32-bit identifiers, data and text without NUL below 4 GiB and for every hash of its nodes. |
| BplistStandard.LeafReads | lib/plist/bplist.c:633-785 | An object without children is read as the published format stores it: marker 0x08 or 0x09 for booleans, 0x1n for integers, 0x8n for identifiers, 0x4n for data, 0x5n for ASCII and 0x6n for UTF-16 with its units in big-endian order. |
| BplistStandard.ReadsAt | lib/plist/bplist.c:787-840 | Whatever tree the published format stores at an index, arrays under marker 0xAn and dictionaries under 0xDn with all keys before all values, is the tree the parser returns for that index; the ancestor check stops none. |
| BplistStandard.SizesAgree | lib/plist/bplist.c:813-833 | An object stores trees of one size only, so that none can be inside itself. |
| BplistConforms.ConformingRead | lib/plist/bplist.c:842-935 | Every file of the published format is read as the tree it holds, whoever wrote it: "bplist00", objects, offset table, and a trailer whose fields are at fixed places before the end. |
| BplistConforms.TrailerRead | lib/plist/bplist.c:842-900 | The trailer fields are taken from 26, 25, 24, 16 and 8 bytes before the end. |
| BplistConforms.RawIffAscii | lib/plist/bplist.c:1224-1236 | Text is stored as bytes exactly if all are below 0x80, or if there are 2^31 or more of them, since the length of the test is a signed number of 32 bits. |
| BplistConforms.WrittenConforms | lib/plist/bplist.c:1238-1459 | What is printed for a tree is a file of the published format that holds that tree, for every hash of its nodes. |
| PlistDicts.WithItemFinds | lib/plist/plist.c:481-521 | After an item was set every key but that one is found as before, that one gives the item, and keys stay distinct and alternate with values. |
| PlistDicts.WithoutFinds | lib/plist/plist.c:528-545 | After an item was removed every other key is found as before and that one is not. |
| PlistDicts.WithItemOrder | lib/plist/plist.c:481-521 | A new key comes after all others, and a key that is set again stays where it is. |
| PlistDicts.WithoutOrder | lib/plist/plist.c:528-545 | Removing a key leaves the others in their order. |
| PlistDicts.IndexInserted | lib/plist/hashtable.c:58-92 | Inserting in the index what is set in the list keeps the two in agreement, for every key and every hash. |
| PlistDicts.IndexRemoved | lib/plist/hashtable.c:111-140 | Removing from the index what is removed from the list keeps the two in agreement. |
| PlistDicts.PlistDict.BuildIndex | lib/plist/plist.c:505-517 | The index made when the 501st child comes agrees with the list. |
| PlistDicts.PlistDict.GetItem | lib/plist/plist.c:448-479 | Through the index or along the links of the child list, the same node. |
| NodeLists.NodeList.IndexOf | lib/plist/node.c:183-200 | The place of a node among the children, or -1 exactly if it is not there. |
| PlistDicts.PlistDict.SetItem | lib/plist/plist.c:481-521 | On the linked list: the new node takes the place of the old one, or a new key node and the item come last; the list stays well linked, the index is there afterwards exactly if it was before or there are more than 500 children, and it agrees with the list. |
| PlistDicts.PlistDict.ReplaceItem | lib/plist/plist.c:485-493 | An item is never the first child, so taking it out and inserting at its place keeps all links, and the key is the node before the new item. |
| PlistDicts.PlistDict.RemoveItem | lib/plist/plist.c:528-545 | Unlinks the key, found by the previous link of the item, and the item, and takes the key from the index; list and index still agree. |
| NodeLists.NodeList.Add | lib/plist/node_list.c:51-73 | Appends: begin, end, next, prev and count still describe one sequence that starts with the list itself. |
| NodeLists.NodeList.Insert | lib/plist/node_list.c:75-121 | The node comes after the asked number of nodes; the links still describe one sequence in both directions exactly if that number is not zero or the list was empty. |
| NodeLists.NodeList.Remove | lib/plist/node_list.c:123-153 | The node is unlinked and its place returned, or -1 and nothing changed if it is not in the list. |
| HttpFold.AppendTwice | lib/http_parser.c:101-130 | Data callbacks of one kind in a row are one piece of data, however they are divided. |
| HttpFold.FoldConcat | lib/http_parser.c:704-2026 | The byte-at-a-time parser has no memory but its fields: reading two pieces is reading their concatenation. |
| HttpFold.RankDrops | lib/http_parser.c:62-63 | A byte that is looked at again is looked at again only finitely often. |
| HttpSim.TurnSound | lib/http_parser.c:704-2026 | Every turn of the state machine keeps what all states promise about the fields: matched prefixes in bounds, a content length below 2^64, and no body state without bytes to come. |
| HttpSim.PassInStep | lib/http_parser.c:101-135 | What marks and callbacks deliver together after a turn is what the fold hands on. |
| HttpTrack.ScanTracked | lib/http_parser.c:1480-1503 | Skipping to the end of the line by a search for CR and LF is reading byte by byte, unless a byte passed over is not allowed in a header value; then the fold stopped there. |
| HttpTrack.BodyTracked | lib/http_parser.c:1849-1884 | Skipping over body bytes is reading them one by one. |
| HttpExecute.Memchr | lib/http_parser.c:1486-1487 | The first occurrence within the limit, or none. |
| HttpExecute.ScanLine | lib/http_parser.c:1480-1503 | The scan stops at the first CR or LF if there is one within the header size limit, else at the end of the data. |
| HttpExecute.HttpParser.CountHeaderSize | lib/http_parser.c:150-157 | The counter grows by the number, and the error is set exactly above the limit. |
| HttpExecute.HttpParser.Turns | lib/http_parser.c:706-2026 | One byte outside the inner loops, with all its re-executions, changes the fields and calls as the fold does. |
| HttpExecute.HttpParser.Names | lib/http_parser.c:1242-1369 | The loop over a header name is in step with the fold where it stops. |
| HttpExecute.HttpParser.Values | lib/http_parser.c:1451-1654 | The loop over a header value is in step with the fold where it stops, or the fold stopped at a byte the search passed over; what the fold makes of a value, HttpHeaders.LengthRead and WordRead say. |
| HttpExecute.HttpParser.Bodies | lib/http_parser.c:1849-1999 | The bulk steps over body bytes are in step with the fold where they stop. |
| HttpExecute.HttpParser.Execute | lib/http_parser.c:632-2058 | Result, fields and callback data of a call are those of reading its bytes one by one, exactly if no byte that is not allowed is hidden from the checks by the search for the line end. Nothing is read after an error; an empty call outside a message start is an error; the header size counts no byte more than twice. |
| HttpCuts.HiddenInPiece | lib/http_parser.c:1480-1503 | A byte hidden in one piece is hidden in the whole. |
| HttpCuts.RunsAreSound | lib/http_parser.c:704-2026 | What all states promise holds in every reachable state. |
| HttpCuts.Feed | lib/http_request.c:173-184 | However the bytes are cut into calls, fields, callback data and the number of bytes read are those of the whole, if no byte is hidden and the header size limit is not passed; it is not if twice the bytes fit in it. What the whole is for a request, HttpMessage.RequestRead says. |
| HttpBody.BodyIsContentLength | lib/http_parser.c:1849-1884 | A body with a content length is exactly that many bytes, then the message is complete. |
| HttpBody.SizeRead | lib/http_parser.c:1901-1963 | The hexadecimal digits of a chunk line are read as their value, with any extension (RFC 7230, section 4.1). |
| HttpBody.ChunkIsItsSize | lib/http_parser.c:1982-2003 | The data of a chunk is exactly as many bytes as its size says. |
| HttpBody.ChunkRead | lib/http_parser.c:1901-2019 | A whole chunk hands on its data between its two notices. |
| HttpBody.ChunksRead | lib/http_parser.c:1901-2019 | A row of chunks hands on the data of each, in order. |
| HttpBody.ChunkedBody | lib/http_parser.c:1901-2019 | Chunks, a last chunk of size zero and an empty line complete the message, with the data of all chunks handed on. |
| HttpBody.BodyOfChunks | lib/http_parser.c:1982-2003 | The body is the concatenation of the data of the chunks. |
| HttpBody.CutDecidesRefusal | lib/http_parser.c:1451-1503 | The same two bytes of a header value are refused if a cut separates them and may pass if none does. |
| HttpNames.NameTells | lib/http_parser.c:1242-1369 | After a header name the parser looks for a value exactly if the name is Content-Length, Transfer-Encoding, Connection, Proxy-Connection or Upgrade in any mixture of letter cases, and as that one. |
| HttpHeaders.LengthRead | lib/http_parser.c:1510-1545 | The digits of a Content-Length are read as their decimal number, and are accepted exactly if it is at most 18446744073709551609. |
| HttpHeaders.WordRead | lib/http_parser.c:1386-1654 | The values chunked, keep-alive, close and upgrade are recognised in any mixture of letter cases. |
| HttpHeaders.LineRead | lib/http_parser.c:1192-1732 | A header line hands on its name and its value, without the blanks before the value. |
| HttpMethods.NameIsMethod | lib/http_parser.c:962-1028 | The letters of every method, however many methods share their beginning, lead to that method. |
| HttpLine.TargetStates | lib/http_parser.c:485-588 | A path, or a scheme, host and path, leads to a state in which the target may end. |
| HttpLine.FirstLineRead | lib/http_parser.c:918-1190 | A request line of any method but CONNECT is read as it is written: method, target, and version of HTTP or RTSP; the target is handed on whole. |
| HttpRequest.ValueMeans | lib/http_parser.c:1386-1732 | What each header adds to the flags and the content length. |
| HttpRequest.HeadersRead | lib/http_parser.c:1192-1732 | All headers hand on names and values in order, and the flags and the content length are those they announce. |
| HttpRequest.EmptyLineRead | lib/http_parser.c:1734-1846 | After the empty line a chunked body, a body of the content length or the end of the message follows, as the headers say. |
| HttpMessage.RequestRead | lib/http_parser.c:918-2019 | A whole request, with no body, a body of the announced decimal length, or a chunked one, is read as it is written: method, version, target, each header with its value and the body are handed on, and then the message is complete. |
| HttpMessage.Receive | lib/http_request.c:173-184 | The same for a request that arrives in any pieces, if its headers are not found too long; they are not if twice its bytes are at most 80 KiB. |
| RaopStream.RunDelivers | lib/raop_buffer.c:217-400 | After every run of queue, dequeue and flush calls, wherever the flushes are, what was played since the last start is exactly the accepted packets in order of their unbounded numbers, with silence where none was accepted. |
| RaopStream.FlushDelivers | lib/raop_buffer.c:385-400 | A flush keeps that for every argument: afterwards nothing is awaited but what comes from the given number on. |
| RaopStream.NextDelivers | lib/raop_buffer.c:217-400 | One call of any kind keeps that. |
| RaopStream.NoneAfterItsTurn | lib/raop_buffer.c:250-270 | A packet is placed only under a number whose turn has not come and that no packet has; it changes no other. |
| RaopStream.NearestNumber | lib/raop_buffer.c:174-178 | A sequence number stands for the number nearest to the next one to play, over every wrap from 65535 to 0. |
| RaopStream.DrainsWindow | lib/raop_rtp.c:539-547 | Without resends the loop takes exactly as many dequeues as the window is long, each with its packet or silence. |
| RaopStream.DrainStops | lib/raop_rtp.c:539-547 | The loop ends only where the buffer is empty or, with resends, the first packet is missing and fewer than 512 numbers are in the window. |
| RaopStream.GivesExactlyWhen | lib/raop_buffer.c:316-358 | A dequeue gives something exactly if the window is not empty and its first packet is there, resends are off, or 512 numbers are in the window; then the window moves by one number. |
| RaopStream.DrainsToGap | lib/raop_rtp.c:539-547 | With resends the loop plays the packets up to the first missing one and no further, unless the window is full. |
| RaopStream.RunPatient | lib/raop_buffer.c:316-358 | In every run whose dequeues all ask for resends, silence takes the place of a packet only after a packet at least 511 numbers ahead of it was accepted. |
| RaopStream.InTime | lib/raop_buffer.c:217-358 | So in such a run a packet that comes before any packet 511 numbers ahead of it is not late and gets its place. |
| RaopStream.PlayedInTurn | lib/raop_buffer.c:217-358 | Such a packet is what is played in its turn, whatever calls follow, as long as none of them starts the stream anew. |
| RaopStream.PlaceOfNumber | lib/raop_buffer.c:250-311 | Where a packet goes by its number: behind the next to play it is late, within 512 numbers from there it gets its place unless it is there already, and beyond them the stream starts anew with it. |
| RaopStream.PlaceAfterFlush | lib/raop_buffer.c:385-400 | After a flush to a sequence number packets before it are late, and the stream goes on with that number; after any other flush it starts with whatever packet comes. |
| RaopStream.MissingUpTo | lib/raop_buffer.c:360-383 | The end of the run of missing packets: none before it is there, and it is, if it is not beyond the last. |
| RaopBuffers.SlotOfNumber | lib/raop_buffer.c:257 | In a window of 512 numbers the slot tells the number. |
| RaopBuffers.SeqnumCmpNear | lib/raop_buffer.c:174-178 | The comparison of 16-bit sequence numbers is the difference of the numbers they stand for, if those are less than half the range apart. |
| RaopBuffers.TestsDecide | lib/raop_buffer.c:250-311 | The tests on sequence numbers decide whether a packet is late, far ahead or new last, as on the unbounded numbers. |
| RaopBuffers.RaopBuffer.Flush | lib/raop_buffer.c:385-400 | No packet is left, and the window starts at the given number; without one the buffer is empty. The history of the buffer, which always delivers, goes on with a flush. |
| RaopBuffers.RaopBuffer.Queue | lib/raop_buffer.c:217-314 | The ring of 512 slots does what the unbounded map from numbers to packets does: no packet is overwritten before its turn unless the window restarts; short and empty packets change nothing. What is played stays what was accepted, in order. |
| RaopBuffers.RaopBuffer.QueueFrame | lib/raop_buffer.c:250-313 | The same after the header was read. |
| RaopBuffers.RaopBuffer.HeaderRead | lib/raop_buffer.c:240-271 | Flags, payload type, sequence number, timestamp and source are taken from the header of RFC 3550, section 5.1, and the rest is the payload. |
| RaopBuffers.RaopBuffer.Dequeue | lib/raop_buffer.c:316-358 | The packet of the next number or silence in its place, exactly if the buffer holds something and that packet is there, resends are off, or 512 numbers are in the window; else nothing, and nothing changes. |
| RaopBuffers.RaopBuffer.Drain | lib/raop_rtp.c:539-547 | All dequeues until there is nothing to give; where that is, RaopStream.DrainStops and DrainsToGap say. |
| RaopBuffers.RaopBuffer.HandleResends | lib/raop_buffer.c:360-383 | Asks for exactly the run of missing packets from the next one on, at most 511, and for nothing if that one is there; the packet after the run is there. |
| Limbs.FoldedValue | lib/ed25519/sc.c:113-119 | Folding a limb down by twelve subtracts a multiple of the group order. |
| Limbs.CarriedUpValue | lib/ed25519/sc.c:195-230 | A row of carries keeps the number. |
| Limbs.EveryOther | lib/ed25519/sc.c:195-230 | After rounding carries from every other limb those limbs are at most half a limb in size. |
| Limbs.InTurn | lib/ed25519/sc.c:238-273 | After carries in turn all limbs but the last are in range. |
| ScalarReduce.Fold | lib/ed25519/sc.c:113-119 | One fold, with every product and sum within 64 bits. |
| ScalarReduce.FirstPhase | lib/ed25519/sc.c:78-152 | From 24 loaded limbs to 18 small ones, congruent modulo the order and within 64 bits throughout. |
| ScalarReduce.SecondPhase | lib/ed25519/sc.c:153-230 | From 18 limbs to 13, likewise. |
| ScalarReduce.ThirdPhase | lib/ed25519/sc.c:231-273 | After the third fold the number is between -2^252 and 2^252 and the thirteenth limb is 0 or -1, the latter exactly for negative numbers. |
| ScalarReduce.LastPhase | lib/ed25519/sc.c:274-313 | The last fold adds the order exactly to negative numbers; the result is in range. |
| ScalarReduce.ReduceLimbs | lib/ed25519/sc.c:78-313 | The limbs of the remainder by the order. |
| ScalarBytes.LoadLimbs | lib/ed25519/sc.c:36-59 | The limbs stand for the number of the bytes. |
| ScalarBytes.ByteIsBits | lib/ed25519/sc.c:315-346 | Every stored byte is the eight bits of the number at its place. |
| Scalars.StoreLimbs | lib/ed25519/sc.c:315-346 | The bytes stand for the number of the limbs. |
| Scalars.ScReduce | lib/ed25519/sc.c:35-347 | The remainder of 64 bytes by the group order, in 32 bytes. |
| Scalars.MultiplyAdd | lib/ed25519/sc.c:447-470 | The limbs of the product plus the third number, each within 50 bits. |
| Scalars.ProductCarries | lib/ed25519/sc.c:471-539 | The carries before the folds keep the number and make the limbs small enough to fold. |
| Scalars.ScMulAdd | lib/ed25519/sc.c:362-809 | The remainder of a * b + c by the group order, for all 32-byte numbers. |
| Slides.AbsorbBit | lib/ed25519/ge.c:38-40 | Absorbing a bit in the digit of the window, upwards, keeps the number and leaves at most 15 in the digit. |
| Slides.CarryStops | lib/ed25519/ge.c:44-51 | For a scalar below 2^253 the carry of a window never runs past index 255. |
| Slides.CarryUp | lib/ed25519/ge.c:41-51 | Subtracting in the digit and carrying on keeps the number and the shape of the digits. |
| Slides.Window | lib/ed25519/ge.c:35-57 | One window keeps the number, and no nonzero digit follows within it. |
| Slides.Slide | lib/ed25519/ge.c:25-58 | 256 digits that are 0 or odd between -15 and 15 and stand for the scalar. |
| GroupElements.TableOf | lib/ed25519/ge.c:77-100 | The eight odd multiples from 1 to 15. |
| GroupElements.MultiplyDigits | lib/ed25519/ge.c:101-129 | Doubling and adding from the top nonzero digit on gives the combination the digits stand for. |
| GroupElements.DoubleScalarMult | lib/ed25519/ge.c:67-130 | a * A + b * B in every abelian group, for scalars below 2^253. |
| GroupElements.Select | lib/ed25519/ge.c:356-375 | The multiple of the base point the table holds for a digit between -8 and 8, or its negative. |
| GroupElements.Recode | lib/ed25519/ge.c:394-410 | 64 digits between -8 and 8 that stand for the scalar in radix 16. |
| GroupElements.DigitsInTurn | lib/ed25519/ge.c:413-433 | Odd digits times 16 and even digits together are all digits. |
| GroupElements.ScalarMultBase | lib/ed25519/ge.c:386-434 | The multiple of the base point by the scalar. |
| Signatures.ReducedHash | lib/ed25519/sign.c:14-19 | A hash modulo the group order, whose top three bits are clear. |
| Signatures.Sign | lib/ed25519/sign.c:7-31 | The signature of RFC 8032, section 5.1.6. |
| Signatures.Verify | lib/ed25519/verify.c:47-77 | True exactly if s is below 2^253 and s B = R + h A in the group, for a public key that encodes A and a signature whose first half encodes R, if different points have different encodings; a first half that encodes no point is refused. |
| Signatures.CreateKeypair | lib/ed25519/keypair.c:6-16 | The clamped hash of the seed and the encoded multiple of the base point. |
| Signatures.SignaturesVerify | lib/ed25519/verify.c:47-77 | Every signature made with a key pair is accepted with its public key, for every message. |
| Signatures.AcceptedIff | lib/ed25519/verify.c:47-77 | The check on encodings is the equation s B = R + h A of RFC 8032, section 5.1.7, with h the hash of both encodings and the message modulo the order: what does not satisfy it is refused. |
| Signatures.SecondHalfUnique | lib/ed25519/verify.c:47-77 | If the base point has exactly the group order, two accepted signatures of one message and key with the same first half and reduced second halves are equal. |
| Signatures.SignWithSeed | lib/ed25519/sign.c:7-31 | From a seed: the key pair, the signature written out from the two halves of the hash of the seed, and verification, which accepts it. |
| Sha512s.BlocksConcat | lib/ed25519/sha512.c:171-210 | Compressing whole blocks of two pieces is compressing those of their concatenation. |
| Sha512s.MoreWaits | lib/ed25519/sha512.c:171-210 | What waits in the buffer and what was compressed after some more bytes. |
| Sha512s.Sha512Context.Update | lib/ed25519/sha512.c:171-210 | The context stands for the concatenation of all data so far, by whichever of the two ways a piece is taken. |
| Sha512s.Sha512Context.Pad | lib/ed25519/sha512.c:232-253 | The padding, with a block of its own exactly if more than 112 bytes wait. |
| Sha512s.PaddedParts | lib/ed25519/sha512.c:232-257 | The blocks compressed at the end are those of the padded message. |
| Sha512s.PaddedIsBlocks | lib/ed25519/sha512.c:232-257 | The padded message is whole blocks (FIPS 180-4, section 5.1.2). |
| Sha512s.PaddedShape | lib/ed25519/sha512.c:232-257 | After the message come a bit 1, as few bits 0 as possible and the length in bits as a number of 128 bits (FIPS 180-4, section 5.1.2). |
| Sha512s.InitialIsRoots | lib/ed25519/sha512.c:148-163 | The initial words are the first 64 bits of the fractions of the square roots of the first eight primes (FIPS 180-4, section 5.3.5). |
| Sha512s.Sha512Context.Final | lib/ed25519/sha512.c:218-265 | The digest of the whole message, however it was divided into updates. |
| FieldLimbs.WeightProduct | lib/curve25519/curve25519-donna.c:99-200 | The weights of two limbs multiply to the weight of the sum of their indices, doubled for two odd limbs. |
| FieldLimbs.WrappedSum | lib/curve25519/curve25519-donna.c:502-507 | Moving units of 2^255 to limb 0, nineteenfold, subtracts a multiple of the prime. |
| FieldProducts.LimbSumIsProduct | lib/curve25519/curve25519-donna.c:99-200 | The nineteen limbs stand for the product. |
| FieldProducts.Fourteen | lib/curve25519/curve25519-donna.c:98-200 | At most fourteen products meet in one limb. |
| FieldProducts.FProduct | lib/curve25519/curve25519-donna.c:99-200 | The product of the two numbers, with every limb at most fourteen products and within 64 bits. |
| FieldProducts.FSquareInner | lib/curve25519/curve25519-donna.c:345-401 | The square of the number, by the shorter formulas. |
| FieldReduce.FReduceDegree | lib/curve25519/curve25519-donna.c:206-238 | Ten limbs for a congruent number, each at most 280 * 2^54. |
| FieldReduce.DivBy26 | lib/curve25519/curve25519-donna.c:247-258 | The quotient towards zero, for negative numbers too. |
| FieldReduce.DivBy25 | lib/curve25519/curve25519-donna.c:263-274 | The quotient towards zero, for negative numbers too. |
| FieldReduce.FReduceCoefficients | lib/curve25519/curve25519-donna.c:279-320 | A congruent number in limbs below 2^26, without overflow; all but limb 1 fit their width. |
| FieldReduce.FMul | lib/curve25519/curve25519-donna.c:328-337 | A number congruent to the product modulo 2^255 - 19 in limbs below 2^26, for limbs below 2^27, also in place. |
| FieldReduce.FSquare | lib/curve25519/curve25519-donna.c:410-421 | Likewise the square. |
| FieldBytes.FExpand | lib/curve25519/curve25519-donna.c:424-442 | The limbs of the low 255 bits of 32 bytes. |
| FieldBytes.BorrowPass | lib/curve25519/curve25519-donna.c:483-512 | After one pass every limb but the first is itself plus what it borrowed less what was borrowed from it, and limb 0 pays nineteen for each borrow of the last; none but the first is negative, and after a second pass none is. |
| FieldBytes.LastLent | lib/curve25519/curve25519-donna.c:483-512 | The first pass borrows at most three from the last limb: at most one exactly if that limb less what the limbs below borrowed is at least -2^25, and three exactly if it is -(2^26 - 1) and the limbs below borrowed two. |
| FieldBytes.FirstLimb | lib/curve25519/curve25519-donna.c:507-519 | After the first pass limb 0 is at least -19, as the comment there claims, exactly if at most one was borrowed or the limb had enough to repay the rest. |
| FieldBytes.ThreeBorrowed | lib/curve25519/curve25519-donna.c:514-519 | An input within the bounds for which three are borrowed and limb 0 becomes -57. |
| FieldBytes.WidthsLendOne | lib/curve25519/curve25519-donna.c:514-519 | If every limb is within its own width of 26 or 25 bits, at most one is borrowed from any limb. |
| FieldBytes.CarryPass | lib/curve25519/curve25519-donna.c:535-553 | After one pass every limb but the first fits; after a second all do. |
| FieldBytes.Equal | lib/curve25519/curve25519-donna.c:449-457 | All ones exactly for equal words. |
| FieldBytes.AtLeast | lib/curve25519/curve25519-donna.c:461-465 | All ones exactly if the first number is at least the second. |
| FieldBytes.BelowPrime | lib/curve25519/curve25519-donna.c:562-572 | Limbs that fit stand for 2^255 - 19 or more exactly if the first is at least 0x3ffffed and all others are the greatest of their size. |
| FieldBytes.HighMask | lib/curve25519/curve25519-donna.c:565-572 | The mask is all ones exactly for numbers from 2^255 - 19 on. |
| FieldBytes.StoreLimbs | lib/curve25519/curve25519-donna.c:586-611 | The bytes stand for the number of the limbs, although limbs share bytes and the shift of limb 4 reaches the sign bit. |
| FieldBytes.FContract | lib/curve25519/curve25519-donna.c:471-612 | The least representative modulo 2^255 - 19 in 32 bytes, for all limbs below 2^26 of either sign. |
| FeBytes.EstimateQuotient | lib/ed25519/fe.c:1408-1418 | The quotient estimated from the top is the exact quotient by 2^255 - 19. |
| FeBytes.FeReduce | lib/ed25519/fe.c:1408-1450 | The limbs of the least representative. |
| FeBytes.FeToBytes | lib/ed25519/fe.c:1386-1491 | The least representative in 32 bytes, for limbs up to a tenth beyond their size. |
| Ladder.FSum | lib/curve25519/curve25519-donna.c:68-74 | The sum of the numbers, in limbs that may be multiplied. |
| Ladder.FDifference | lib/curve25519/curve25519-donna.c:78-83 | The second number minus the first. |
| Ladder.FScalarProduct | lib/curve25519/curve25519-donna.c:86-91 | The multiple by 121665, in limbs that need no reduction of the degree. |
| Ladder.DifferentialAdd | lib/curve25519/curve25519-donna.c:644-671 | The coordinates of the sum are congruent to the addition formulas of Montgomery. |
| Ladder.Double | lib/curve25519/curve25519-donna.c:673-697 | The coordinates of the double are congruent to the doubling formulas. |
| Ladder.FMonty | lib/curve25519/curve25519-donna.c:625-698 | Both at once, with every limb within its bound throughout. |
| Curve25519.StepIsCurve | lib/curve25519/curve25519-donna.c:625-698 | What the step computes with 121665 is the doubling on y^2 = x^3 + 486662 x^2 + x, and four times both coordinates of the differential addition (RFC 7748, section 5). |
| Curve25519.SwapConditional | lib/curve25519/curve25519-donna.c:709-719 | Swaps the first ten limbs exactly if the flag is 1, by masked exclusive or on signed 32-bit words. |
| Curve25519.LadderBit | lib/curve25519/curve25519-donna.c:740-750 | From the multiples n and n + 1 of the point to 2n + bit and 2n + bit + 1. |
| Curve25519.LadderByte | lib/curve25519/curve25519-donna.c:738-766 | Eight bits, with the working arrays trading places after each. |
| Curve25519.CMult | lib/curve25519/curve25519-donna.c:726-771 | Coordinates of the multiple of the point by the 32-byte scalar. |
| Reciprocals.Raise | lib/curve25519/curve25519-donna.c:805-808 | n squares and a product move the exponent up by n bits and fill them. |
| Reciprocals.CRecip | lib/curve25519/curve25519-donna.c:776-841 | The power 2^255 - 21 of the number, by the addition chain. |
| Reciprocals.PowerIsReciprocal | lib/curve25519/curve25519-donna.c:776-841 | If a power of the number is 1, as by Fermat's theorem the power 2^255 - 20 is, then the power before it, which the chain computes, is the reciprocal. |
| Curve25519.ClampedScalar | lib/curve25519/curve25519-donna.c:849-852 | The clamped secret is a multiple of 8 between 2^254 and 2^255 (RFC 7748, section 5). |
| Curve25519.Donna | lib/curve25519/curve25519-donna.c:843-860 | The public value is the least representative of x times the reciprocal power of z, for coordinates x : z of the multiple of the point by the clamped secret. |
| Ctr.CryptedConcat | lib/aes_ctr.c:45-69 | Encrypting two pieces at their places in the stream is encrypting their concatenation. |
| Ctr.CryptedTwice | lib/aes_ctr.c:45-69 | Encrypting twice gives the data back. |
| Ctr.Ctr128Inc | lib/aes_ctr.c:20-31 | Plus one modulo 2^128 (NIST SP 800-38A, section 6.5). |
| Ctr.IncrementIv | lib/aes.c:550-561 | Plus one modulo 2^128. |
| Ctr.AesCtrContext.Encrypt | lib/aes_ctr.c:45-69 | The next bytes of one keystream, for calls of every length. |
| Ctr.MirrorBuffer.XcryptBuffer | lib/aes.c:536-567 | The keystream from the start of the next block on; a partly used block is not continued. |
| Ctr.MirrorBuffer.Carried | lib/mirror_buffer.c:119-124 | The bytes kept from the last block continue the keystream. |
| Ctr.MirrorBuffer.Rest | lib/mirror_buffer.c:132-145 | The rest of a block of keystream is kept for the next call. |
| Ctr.MirrorBuffer.Decrypt | lib/mirror_buffer.c:118-146 | The next bytes of one keystream, for calls at least as long as what is kept. |
| AesTables.SboxInverse | lib/crypto/aes.c:81-154 | The inverse table undoes the substitution, for all 256 bytes. |
| AesField.InverseUnique | lib/crypto/aes.c:81-118 | In GF(2^8), products being sums of doublings modulo 0x11b, no byte has two inverses. |
| AesField.HasInverse | lib/crypto/aes.c:81-118 | Every byte but 0 has an inverse there: the byte whose affine image is the entry of the table. |
| AesField.SubstitutionIs | lib/crypto/aes.c:81-118 | For all 256 bytes the substitution is that of FIPS 197, section 5.1.1: the inverse, or 0 for 0, exclusive or its rotations by one to four bits, exclusive or 0x63. |
| AesField.MixIsMatrix | lib/crypto/aes.c:354-455 | The mixing of a column and its inverse are the matrices 2, 3, 1, 1 and 14, 11, 13, 9 over that field (FIPS 197, sections 5.1.3 and 5.3.3). |
| AesField.StateLayout | lib/crypto/aes.c:285-292 | The bytes of a block fill the state column by column. |
| AesField.ShiftsLeft | lib/crypto/aes.c:369-399 | Row r of the state turns left by r places, with every byte substituted. |
| AesField.MixesColumns | lib/crypto/aes.c:380-392 | Every byte of a mixed column is the mixing of the four bytes from its own on. |
| AesField.RconDoubles | lib/crypto/aes.c:156-164 | The round constants are 1 and then each the double of the one before. |
| AesField.ScheduleWord | lib/crypto/aes.c:214-247 | Every word of the key schedule, byte by byte: the key, then the word one key length before plus the last word, rotated, substituted and with the round constant at every key length, and substituted in the middle of a 256-bit key (FIPS 197, section 5.2). |
| AesWords.XtimePlus | lib/crypto/aes.c:170-173 | Multiplication by x in the field distributes over exclusive or. |
| AesWords.UnmixMixed | lib/crypto/aes.c:354-455 | The inverse column mixing undoes the mixing. |
| AesWords.MixedForm | lib/aes.c:306-319 | The column mixing with a shared sum is the mixing by 2, 3, 1, 1. |
| AesWords.SharedForm | lib/crypto/aes.c:434-448 | The shared sums of the decryption round are the inverse mixing. |
| AesWords.Mul2Bytes | lib/crypto/aes.c:63-64 | Four multiplications by x at once in one word. |
| AesWords.PackedIsInvMix | lib/crypto/aes.c:63-76 | The packed inverse mixing is the inverse mixing of the four bytes. |
| AesWords.InvMixPlus | lib/crypto/aes.c:253-267 | The inverse mixing distributes over the exclusive or with a round key. |
| AesBlock.UnmixKeyed | lib/crypto/aes.c:253-267 | Adding the converted key after the inverse mixing is the inverse mixing after adding the key (FIPS 197, section 5.3.5). |
| AesBlock.DecryptionFollows | lib/crypto/aes.c:404-455 | Every round of the decryption meets the state of its round of the encryption. |
| AesBlock.BlockRoundTrip | lib/crypto/aes.c:354-455 | Decryption with converted keys undoes encryption, for every number of rounds. |
| AesContexts.AesCtx.SetKey | lib/crypto/aes.c:178-248 | The key schedule of FIPS 197, section 5.2, for 128 and 256 bits, as the function of AesField.ScheduleWord. |
| AesContexts.AesCtx.ConvertKey | lib/crypto/aes.c:253-267 | All round keys but the first and the last are inverse mixed. |
| AesContexts.AesCtx.Encrypt | lib/crypto/aes.c:354-399 | The block function on the schedule, whose steps are those of AesField.ShiftsLeft, MixesColumns and SubstitutionIs. |
| AesContexts.AesCtx.Decrypt | lib/crypto/aes.c:404-455 | The equivalent inverse block function. |
| AesContexts.AesCtx.CbcEncrypt | lib/crypto/aes.c:272-306 | Every block is chained to the one before, and the last is kept for the next call (NIST SP 800-38A, section 6.2). |
| AesContexts.AesCtx.CbcDecrypt | lib/crypto/aes.c:311-349 | Every block is unchained from the one before, likewise. |
| AesContexts.CbcRoundTrip | lib/crypto/aes.c:272-349 | Decryption gives the message back, for every key schedule, initial value and message of whole blocks. |
| AesContexts.CbcConcat | lib/crypto/aes.c:272-306 | Two calls, the second chained by what the first kept, encrypt as one. |
| AesContexts.WholeBlocks | lib/crypto/aes.c:285-305 | Bytes after the last whole block are not encrypted. |
| AesContexts.CbcChains | lib/crypto/aes.c:285-305 | The next block is encrypted after the exclusive or with the last encrypted block, and the first one after that with the initial vector. |
| AesContexts.AddKeyBytes | lib/crypto/aes.c:289-292 | The exclusive or of blocks is that of their bytes. |
| AesContexts.CbcInPieces | lib/crypto/aes.c:272-306 | Any number of calls with whole blocks and a last one of any length encrypt as one call. |
| AesContexts.CbcThereAndBack | lib/crypto/aes.c:178-349 | From a key: for every key of 128 or 256 bits, initial value and message in any pieces, a second context with the same key, converted, gives back all whole blocks. |
| AesMatrix.MixColumns | lib/aes.c:306-319 | The mixing of all four columns. |
| AesMatrix.Cipher | lib/aes.c:410-433 | The byte matrix computes the same block function as the words. |
| AesMatrix.KeyExpansion | lib/aes.c:152-223 | The same key schedule as the words. |
| AesMatrix.MultiplyIs | lib/aes.c:326-345 | The bitwise product by 14, 11, 13 and 9 is the multiplier of the inverse mixing, for all bytes. |
| AesMatrix.InvMixColumns | lib/aes.c:347-366 | The inverse mixing of all four columns. |
| AesMatrix.TurnedAndUnsubbed | lib/aes.c:368-407 | Turning the rows back and substituting by the inverse table is what the packed implementation does in one step. |
| AesMatrix.InvCipher | lib/aes.c:435-458 | The byte matrix computes the inverse cipher with the round keys as they are, and what it computes from an encrypted block is that block before encryption. |
| AesMatrix.InverseCiphersAgree | lib/aes.c:435-458 | What InvCipher computes after every round is what the equivalent inverse cipher of lib/crypto/aes.c:404-455 computes with converted keys. |
| AesMatrix.InvCipherBack | lib/aes.c:435-458 | What InvCipher computes undoes the cipher, with the schedule as it is. |

## Left out

- BigDivide.Divide: requires the top component of the divisor to be less than 0xFFFFFFFF, because lib/crypto/bigint.c:408 adds one to it in 32 bits and would divide by zero.
- BigModular.Modulus.constructor: the same holds for the modulus (lib/crypto/bigint.c:751); sizes are at most 0x7FFF components, the range of the size field (lib/crypto/bigint_impl.h).
- BigModular.Barrett: full reduction is not promised in all cases, because it is false of the code; the contract says exactly when it holds.
- BigPower.ModPower: for a modulus whose top component is 1 or 0xFFFFFFFE, or a base that is not reduced, only a congruent number below three moduli is promised.
- BigMultiply.RegularMultiply: components from the inner limit on are not described; the callers drop them.
- HttpExecute.HttpParser.Execute: says nothing about the fields when the header size limit is passed, except that the bytes read so far are more than half of it; data of 2^31 bytes and more in one call is not modelled.
- HttpMessage.RequestRead: no CONNECT requests, no empty header values or values over several lines, no blanks behind a value the parser looks at, and no lists of words in Connection; Fold and Execute model all of these.
- HttpMessage.Receive: no requests that ask for another protocol; for those RequestRead says where the parser leaves.
- HttpCuts.Feed: assumes that no call passes the header size limit and that the parser does not leave at an upgrade; for hidden bytes see HttpExecute.HttpParser.Execute, which states the failure exactly.
- RaopBuffers.RaopBuffer.HandleResends: with an empty buffer the request is stated as the code makes it, from the numbers left behind.
- Ctr.MirrorBuffer.Decrypt: requires at least as many bytes as were carried over; lib/mirror_buffer.c:121 reads beyond a shorter input.
- NodeLists.NodeList.Insert: before the first node the previous link becomes empty (lib/plist/node_list.c:102-108), so the list is then not valid; what later calls do to such a list is not modelled.
- PlistDicts.PlistDict.SetItem: the item must not be in the dictionary already, as in C it must not be attached; the memory of nodes taken out is not freed.
- BplistRoundTrip.BinaryRoundTrip: no reals and dates, and text without NUL; containers are separate objects, so that no container occurs twice.
- BplistConforms.WrittenConforms: texts are below 2 GiB, because longer ones are written as if they were ASCII (BplistConforms.RawIffAscii), and the file is below 4 GiB.
- BplistConforms.ConformingRead: trees without reals, dates and sets, text without NUL, and text in UTF-16 that is not empty, because the parser refuses an empty one (lib/plist/bplist.c:378-382).
- Signatures.SignaturesVerify: the group, the encoding of points and the hash are given by their laws.
- Signatures.Verify: that different points have different encodings is a condition of the equation; decompression decides which keys decode.
- Curve25519.Donna: that the doubling and addition formulas of the curve are those of the group of its points is a hypothesis.
- GroupElements.ScalarMultBase: that the table holds the multiples of the base point is a hypothesis; so is that for the odd multiples in GroupElements.DoubleScalarMult.
- Point coordinates, their addition formulas and point decompression in ge.c.
- fe_mul, fe_sq, fe_frombytes, fe_invert and fe_pow22523 in fe.c: other layouts of what FieldReduce, FieldBytes and Reciprocals prove for the other field implementation.
- The masks of `select`, `fe_cmov` and `consttime_equal` are the choices and comparisons they stand for.
- The compression function of SHA-512 and, in `Ctr`, the block cipher: arbitrary functions.
- Scalars.MultiplyAdd: adds the products of sc_muladd up row by row, where the source has one sum for each limb; the bounds hold for every partial sum.
- Reference counts, the free list and the three moduli of a long integer context; bi_crt; imports and exports of numbers.
- Montgomery, Karatsuba and sliding-window code of the long integers, which the configuration leaves out.
- Reals, dates and XML property lists; plist_copy; arrays other than as children; dictionaries merged or built by the parser with equal keys.
- Failing allocation, the growth of byte arrays, and the estimate of the printed size.
- HTTP responses, callbacks that return an error, pausing, the lenient flag, http_parser_parse_url and the collection of headers in http_request.c.
- AAC decoding and decryption in the audio buffer: an arbitrary function from packets to audio.
- Cipher block chaining in lib/aes.c, which the receiver does not use, and its key sizes other than 128 bits.
- Playfair, pairing, handlers, threads, sockets, service discovery and logging.
