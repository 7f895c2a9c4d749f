# Verified models of the vendored libraries

A Dafny model of the algorithmic parts of the repository's vendored Python libraries. One module
stands for one component. Code that updates variables, lists, dictionaries or linked cells is
modelled by methods and classes that update them in the same way, proved against specifications;
code that only computes is modelled by functions. What each library promises is then proved about
those specifications, for all inputs.

- **Address blocks** (`Bits`, `Blocks`, `Netmasks`, `Summarize`, `SummaryTurn`, `Collapse`,
  `OlderAddresses`, `AddressText`, `AddressGrammar`; from `ipaddress.py` and `ipaddr.py`). Blocks of
  an address space of any width are sets of addresses. The operators `&`, `|`, `^`, `>>` and `~` are
  defined bit by bit and bridged to powers of two by lemmas. Both libraries' summaries and collapses
  are proved to return the one list of maximal blocks, the shortest cover there is; the exact number
  of blocks of a range is read off its ends; exclusion returns exactly the difference. The IPv6
  printer and parser are inverse, the printer's compression is the one of section 4.2 of RFC 5952, and
  the parser accepts exactly the texts of section 2.2 of RFC 4291, each for the number it denotes.
- **Symlinks and paths** (`Strings`, `SymlinkResolve`, `PosixPath`; from `pathlib.py`). The memoised
  resolver ends on every finite file system and agrees with plain recursive resolution: a loop is
  reported exactly when plain resolution never ends. Plain resolution is fixed by rules for texts:
  roots, dots, names, links, and one text after another. Parsing and formatting are inverse on normal
  paths, every text is read by rules of the same kind, joining is associative, and `relative_to` is
  characterised exactly.
- **C3 merge and dispatch** (`C3Merge`, `Dispatch`, `Linearization`, `ComposedOrder`, `PlainOrder`,
  `OvertakenDispatch`; from `singledispatch.py`). The merge is sound and complete, and which of the
  consistent orders it returns is characterised without the algorithm. The dispatch cache always
  answers as if nothing were cached; the answer is fixed by the first registered class of the composed
  order, and that order by what it holds and by the lists it is the C3 order of.
- **Ordered dictionary** (`OrderedMap`; from `ordereddict.py`). A circular doubly linked list of
  cells refines an ordered map over every sequence of operations.
- **Exit stack** (`ExitStacks`; from `contextlib2.py`). The unwinding loop refines nested `with`
  statements.
- **JSON** (`JsonPointer`, `JsonPatch`, `CommonRun`; from `jsonpointer.py` and `jsonpatch.py`).
  Pointer texts (section 4 of RFC 6901), object diffs and the add, remove and replace operations
  (section 4 of RFC 6902), and the search for the longest common run of two lists. When applying a
  diff gives the target is characterised exactly, for all pairs of documents.
- **Parser elements** (from `pyparsing.py`). A grammar is a table of numbered elements, possibly
  recursive. `Grammar` says, as a machine, what each class of element asks of the others and what it
  makes of the answers. `Packrat` is the engine as written, with its loops and shared cache.
  `Meanings` shows that outcomes are the least solution of the rules, and `ElementLaws` and `ListLaws`
  say what that makes every class of element mean. `Leading` is the skipping in front of an element,
  `Mirrors` the comparison of two elements with the same rule, and `Splice` the algebra of lists whose
  nested list is replaced by its members. `Streamline` proves that such a step keeps every meaning,
  from a condition on the one place; `Plans` shows that a grammar that meets it at the start goes on
  meeting it; `Flattening` is the in-place rewrite, which therefore keeps all meanings. `Scenes` and
  `StreamlineLimits` are the converse: where the condition fails, some grammar of that shape changes.
  `OneOf` is the in-place reordering of symbols, and `OneOfEngine` shows that its first match is the
  engine's.
- `Results`, `Sequences` and `Strings` hold what several of these share.

Termination of a parse is not assumed. The engine carries a bound on nested and repeated requests;
results do not depend on it, and a cached parse has a result within a bound whenever the uncached
one has. Recursion that the libraries leave unbounded (the resolver, the recursive collapse, the
rewrite of a grammar whose cycles all pass through forwards) ends by a proved measure.

## Findings

Where the code does something other than its documentation or its obvious specification says, the
model follows the code.

- Block sizes in a summary strictly rise and then strictly fall (ipaddress.py:359-366), but the two
  in the middle may be equal. Let M be the last address with the bits below the highest bit in which
  it differs from the first one cleared. Two neighbours are equal exactly when M - first and
  last + 1 - M have the same bit length (`SummaryTurn.FlatTurnExact`). Blocks are the one bits of
  these two lengths (`SummaryTurn.SummaryCount`), and the bound of 2w - 2 blocks is reached for every
  w from 2 on, by all addresses but the first and the last (`SummaryTurn.LongestSummary`).
- `oneOf` replaces single-character symbols by a character class when there are as many symbols as
  characters in all of them (pyparsing.py:3275-3276). That also holds of lists such as "ab" and "",
  and then the parser built is wrong. `OneOf.CharClassExact` and `OneOf.Build` give the exact
  condition: a character class is built and one of the symbols is empty.
- The JSON diff compares with the host's `==` (jsonpatch.py:289-290), under which 1, 1.0 and true are
  equal. Applying a diff gives the target itself, and not just a document equal to it, exactly when
  at no path the two documents hold scalars that are equal and differ
  (`JsonPatch.PatchedExact`, `JsonPatch.NoneConfused`).
- A pointer made from parts loses percent escapes (jsonpointer.py:145, 286-296).
  `JsonPointer.PointerRoundTrip` shows that parts come back exactly when none holds a percent sign
  followed by two hex digits; a percent sign alone does no harm. A diff names its places by such
  pointers (jsonpatch.py:300, 306, 314): applying it gives a document equal to the target exactly
  when no path it names holds such an escape (`JsonPatch.DiffExact`). Keys that it does not name do
  no harm. `JsonPatch.PercentKeyConflicts` is the diff of `{"%41": 1}` and `{}`.
- Flattening nested parser lists (pyparsing.py:2302-2320) does not always keep what they match. It
  does where the nested list has members; a nested Or or MatchFirst has nothing of its own to skip, as
  its constructor arranges (pyparsing.py:2251); a nested And in first place has no error stop behind
  its first member that would come to act on the members after it; and a nested And in a later place
  has besides a first member that is no error stop and skips what the And would have skipped.
  `StreamlineLimits.ShapeExact` shows that a shape of nested list has a grammar that changes exactly
  when it is outside this condition (two kinds of shape apart, named under "Left out"). Under
  whitespace skipping, the default, the last clause fails in `a + (o + c)` with `o` an Or or
  MatchFirst: the And skips blanks before it, the alternatives do not. The rewrite also reads the
  index-error flag of the outer list (pyparsing.py:2310, 2320);
  `StreamlineLimits.LooseSequenceChanges` and `StreamlineLimits.LooseChoiceChanges` show why it has to
  be set.
- The linearization for dispatch merges the bases up to the last abstract one and the other bases as
  two lists (singledispatch.py:59-88). Its documentation says that without abstract classes to insert
  it works exactly like the host's own linearization (singledispatch.py:47-50). It does not: an
  ordinary base that an abstract base is derived from can come before an abstract base that precedes
  it. `PlainOrder.SplitExact` and `PlainOrder.PlainExact` give the exact condition,
  `PlainOrder.OvertakerInherited` a simple necessary one. In `OvertakenDispatch.DispatchDiffers`, for
  `class C(K, I, J)` with K and I abstract and K derived from J, a dispatch on C takes the
  implementation of J, although I comes first in C's order.
- The C3 merge tests the truth of the class it has found (singledispatch.py:38), so a class that
  counts as false makes it raise although an order exists: `C3Merge.LibraryFailsIff`.
- Resolving a relative path from a directory without links is resolving the joined text, but not from
  the working directory `/`, where the result starts with two slashes (pathlib.py:294, 319):
  `SymlinkResolve.RelativeIsJoined`, `SymlinkResolve.RootAsDirectory`.
- The older count of trailing zero bits ends without an answer on a number whose low bits are all
  zero (ipaddr.py:198-202): `Netmasks.CountByShifting` says exactly when.

## Model

| member | source | states |
|---|---|---|
| `Bits.AlignedIsDivisible` | ipaddress.py:298-311 | having the low k bits zero is being divisible by 2^k |
| `Bits.AndMask` | ipaddress.py:1079 | `&` with a run of ones that reaches the top clears exactly the low bits |
| `Bits.OrDisjoint` | ipaddress.py:1832-1843 | or-ing a shifted number with a small one adds them |
| `Bits.TrailingZeroMask` | ipaddress.py:311 | `~n & (n - 1)` is the mask of the trailing zero bits |
| `Netmasks.CountIsZeroCount` | ipaddress.py:298-311 | the count is the number of trailing zero bits, capped; zero has them all |
| `Netmasks.CountByShifting` | ipaddr.py:187-202 | the older shifting loop returns the same count, and nothing at all exactly for a number other than zero whose low `bits` bits are zero |
| `Netmasks.PrefixFromIntExact` | ipaddress.py:563-586 | a number is read as prefix length `plen` exactly when it is that netmask; everything else is rejected |
| `Netmasks.PrefixByStripping` | ipaddr.py:854-877 | the older loop that strips zeroes and compares accepts and rejects the same numbers |
| `Netmasks.NetmaskRoundTrip` | ipaddress.py:550-586 | netmask to prefix length to netmask, for every prefix length |
| `Netmasks.MaskExact` | ipaddress.py:618-649 | a dotted mask is read as a netmask first, then as a hostmask: which integers give which prefix length, both directions |
| `Netmasks.NetworkAndBroadcast` | ipaddress.py:811-825 | masking gives the aligned start, or-ing the hostmask gives the last address |
| `Netmasks.BroadcastIsLast` | ipaddress.py:811-817 | the broadcast address of a network is its last address |
| `Netmasks.NetLessIsLexicographic` | ipaddress.py:764-777 | network order is start first, then netmask, which is prefix length |
| `Netmasks.SupernetMasked` | ipaddress.py:1063-1081 | the supernet computed by mask and shift is the aligned block that many bits up |
| `Netmasks.SupernetIterates` | ipaddress.py:1042-1081 | going up `diff` bits at once is going up one bit `diff` times, and the result contains the network |
| `Netmasks.SupernetExact` | ipaddress.py:1042-1081 | with both arguments: the call succeeds exactly for the whole space, for `new_prefix` from 0 to the own length with the difference at its default, or for a difference in that range; the result is the block of that length around the network |
| `Blocks.Laminar` | ipaddress.py:369-415 | two blocks that share an address are nested |
| `Blocks.HalfOfSupernet` | ipaddr.py:303-304 | a block is one of the two halves of its supernet |
| `Blocks.TidyIsCanonical` | ipaddress.py:369-415 | a list in order, without overlap and without siblings, is the list of the maximal blocks inside its union |
| `Blocks.CanonicalCovers` | ipaddress.py:418-469 | the maximal blocks have the same union as the input |
| `Blocks.CanonicalUnique` | ipaddress.py:418-469 | inputs with the same union have the same list of maximal blocks |
| `Blocks.CanonicalShortest` | ipaddress.py:418-469 | no shorter list of blocks has that union |
| `Summarize.NewestFit` | ipaddress.py:359-363 | the block chosen at each step is the largest aligned one that starts there and ends in the range |
| `Summarize.SummarizeAddressRange` | ipaddress.py:314-366 | consecutive blocks from first to last with no mergeable neighbours; an error exactly for reversed ends |
| `Summarize.SummarizeOlder` | ipaddr.py:204-266 | the same specification for the older loop with its inner search |
| `Summarize.ShrinkToFit` | ipaddr.py:251-258 | the inner loop stops at the largest block that fits |
| `Summarize.GetPrefixLength` | ipaddr.py:170-185 | for any two numbers: dropping the bits that are left makes them equal, dropping fewer does not |
| `Summarize.PrefixOfEnds` | ipaddr.py:170-185 | the common prefix of a block's ends is its prefix length |
| `Summarize.SummaryUnique` | ipaddr.py:204-266 | both libraries give the same list for the same range |
| `Summarize.SummaryIsBest` | ipaddress.py:314-366 | no cover of the range by blocks is shorter; a cover without siblings is this one |
| `Summarize.SummaryShape` | ipaddress.py:359-366 | block sizes strictly rise up to a place and strictly fall after it |
| `Summarize.SummaryLength` | ipaddress.py:359-366 | more than one block means at most 2w - 2 of them |
| `SummaryTurn.TurnExact` | ipaddress.py:359-366 | a block starts at the middle; before it the sizes are the one bits of the length on the left, lowest first, from it on those of the length on the right, highest first |
| `SummaryTurn.FlatTurnExact` | ipaddress.py:359-366 | two neighbours are equal exactly when both lengths have the same bit length |
| `SummaryTurn.SummaryCount` | ipaddress.py:314-366 | the exact number of blocks of every range of several addresses |
| `SummaryTurn.LongestSummary` | ipaddress.py:314-366 | for every w from 2 on, 1 to 2^w - 2 takes 2w - 2 blocks, so the bound is reached |
| `Collapse.SplitItems` | ipaddress.py:440-459 | the split into addresses and networks keeps the union |
| `Collapse.FindAddressRanges` | ipaddress.py:278-295 | the ranges hold exactly the given addresses and no two of them touch |
| `Collapse.MergeSubnets` | ipaddress.py:393-405 | the worklist keeps the union and leaves no two siblings; it ends by the measure 2 * pending + filed |
| `Collapse.DropSubsumed` | ipaddress.py:406-415 | one pass over the sorted survivors removes nested blocks and keeps the union |
| `Collapse.CollapseInternal` | ipaddress.py:369-415 | merge, sort and drop give exactly the maximal blocks of the union |
| `Collapse.CollapseAddresses` | ipaddress.py:418-469 | the result is the list of maximal blocks inside the union of the inputs, in order |
| `OlderAddresses.WithinIsContains` | ipaddr.py:635-647 | the two end comparisons are containment of address sets |
| `OlderAddresses.OlderSupernetIs` | ipaddr.py:1008-1042 | the older supernet is the same block |
| `OlderAddresses.IterSubnets` | ipaddr.py:937-997 | with both arguments: the error cases, else the subnets tile the network without gap, each with the asked prefix length |
| `OlderAddresses.Subnet` | ipaddr.py:1004-1006 | splitting once gives the two halves in order |
| `OlderAddresses.CollapseRecursive` | ipaddr.py:268-312 | absorb and merge until nothing changes ends, keeps the union and leaves no siblings |
| `OlderAddresses.FindAddressRange` | ipaddr.py:152-168 | the first run of consecutive addresses, and no longer one |
| `OlderAddresses.CollapseAddressList` | ipaddr.py:315-373 | the older collapse also returns the maximal blocks of the union |
| `OlderAddresses.LibrariesAgree` | ipaddr.py:315-373 | so the two libraries agree on every input |
| `OlderAddresses.AddressExclude` | ipaddr.py:703-779 | fails exactly when not contained; otherwise sorted, disjoint blocks for the difference, as many as the prefix lengths differ, which no merge can shorten |
| `AddressText.CompressHextets` | ipaddress.py:1874-1919 | the leftmost longest run of at least two zero groups is elided, nothing otherwise |
| `AddressText.CompressedUnique` | ipaddress.py:1874-1919 | that description leaves one possible text |
| `AddressText.PiecesAreGroups` | ipaddress.py:1941-1943 | slices of four of the padded hex text are the eight groups |
| `AddressText.StringFromInt` | ipaddress.py:1922-1945 | the printed text is the compressed groups, reads back to the same number; too large numbers are refused |
| `AddressText.IntFromString` | ipaddress.py:1743-1845 | the parser's loops over counters compute the declarative reading, error for error |
| `AddressText.V6RoundTrip` | ipaddress.py:1743-1945 | every number below 2^128 survives printing and parsing |
| `AddressText.ElidedReads` | ipaddress.py:1791-1838 | any elided run of at least two zero groups reads back to the same number |
| `AddressText.AcceptedIsAddress` | ipaddress.py:1743-1845 | whatever the parser accepts is below 2^128 and its printed form reads the same |
| `AddressText.V4RoundTrip` | ipaddress.py:1245-1321 | dotted quads survive printing and parsing |
| `AddressGrammar.V6Exact` | ipaddress.py:1743-1867 | the parser accepts a text for a number exactly when the text is eight groups between colons, or at most seven with one double colon, the last two perhaps a dotted quad, and the groups, with zeroes for the double colon, make that number |
| `AddressGrammar.V4Exact` | ipaddress.py:1245-1321 | the parser accepts exactly four octets between dots, each for its place in the number |
| `AddressGrammar.HextetExact` | ipaddress.py:1848-1872 | a hextet is one to four hexadecimal digits |
| `AddressGrammar.OctetExact` | ipaddress.py:1282-1321 | an octet is one to three decimal digits up to 255, without a leading zero where that could be octal |
| `AddressGrammar.NumberDigits` | ipaddress.py:1872 | digits of a number count from the left, in base sixteen or ten |
| `AddressGrammar.AssembleNext` | ipaddress.py:1831-1838 | so do groups, in base 65536 |
| `Strings.HexDigitExact` | ipaddress.py:1862-1872 | lower and upper case digits have the same values |
| `Strings.NoOtherHexDigits` | ipaddress.py:1862-1864 | there are no other hexadecimal digits |
| `SymlinkResolve.Resolver.ResolveText` | pathlib.py:282-316 | with any valid memo: the result is that of plain resolution, marks left in progress are those of the callers, a loop means plain resolution never ends |
| `SymlinkResolve.Resolver.ResolveLink` | pathlib.py:311-314 | mark, resolve the target, remember: the memo stays right |
| `SymlinkResolve.Resolve` | pathlib.py:278-320 | loop error exactly when plain resolution diverges, OS errors exactly its errors, paths exactly its paths; no prefix of the result is a symlink |
| `SymlinkResolve.WalkMonotone` | pathlib.py:282-316 | a plain resolution that ends does not depend on the bound |
| `SymlinkResolve.LoopDiverges` | pathlib.py:295-302 | meeting a link whose resolution is in progress means divergence |
| `SymlinkResolve.AbsoluteFromRoot` | pathlib.py:283-284 | a leading separator means the root, from whatever directory |
| `SymlinkResolve.InTwoSteps` | pathlib.py:286-316 | a relative text after a separator is resolved from where the text before it leads |
| `SymlinkResolve.StayingStep` | pathlib.py:287-289 | an empty name and a dot lead nowhere else |
| `SymlinkResolve.UpStep` | pathlib.py:290-293 | two dots cut off the last name; the root stays |
| `SymlinkResolve.NameStep` | pathlib.py:294-316 | a name leads to its entry, to where a link's target leads from here, or to the error of reading it |
| `SymlinkResolve.RealIsFixed` | pathlib.py:278-320 | resolving a resolved path gives it back, from every directory |
| `SymlinkResolve.RelativeIsJoined` | pathlib.py:282-320 | from a directory without links a relative text resolves as the joined text does |
| `SymlinkResolve.RootAsDirectory` | pathlib.py:294-320 | from the working directory `/` the result starts with two slashes |
| `PosixPath.ParseParts` | pathlib.py:73-107 | the backwards loop with its early stop computes the forward reading of the parts |
| `PosixPath.ParseWellFormed` | pathlib.py:73-107 | parsed paths are in normal form |
| `PosixPath.ReadTogether` | pathlib.py:83-88 | a text after a slash adds its parts; doubled slashes, dots between slashes and a slash at the end count for nothing |
| `PosixPath.ReadName` | pathlib.py:83-91 | nothing and a dot are the empty path, any other text without a slash is one part |
| `PosixPath.ReadRoot` | pathlib.py:258-271 | two slashes in front are a root of their own, any other number of them the root of one slash |
| `PosixPath.ReadLast` | pathlib.py:78-102 | of several texts, one with a root voids those before it, one without adds its parts |
| `PosixPath.TextRoundTrip` | pathlib.py:631-656 | parsing the text of a normal path gives it back |
| `PosixPath.TextInjective` | pathlib.py:631-656 | different normal paths have different texts |
| `PosixPath.PartsRoundTrip` | pathlib.py:73-107 | so does parsing its list of parts |
| `PosixPath.ParseTogether` | pathlib.py:73-124 | parsing texts together is parsing the first ones and joining the rest |
| `PosixPath.BuildOrJoin` | pathlib.py:593-646 | the same for arguments that are texts or paths, and joining is associative |
| `PosixPath.RelativeToExact` | pathlib.py:800-830 | `relative_to` returns q exactly when joining q to the other path gives this one |
| `PosixPath.RelativeToWellFormed` | pathlib.py:800-830 | whatever it returns is a normal relative path |
| `PosixPath.JoinThenRelative` | pathlib.py:642-646 | `(p / q).relative_to(p)` is q for every relative q |
| `C3Merge.MergeInPlace` | singledispatch.py:19-44 | the loop with its in-place deletions computes the recursive merge, cut off at a class that counts as false, and returns an order exactly when it is the C3 order of the lists and holds no such class |
| `C3Merge.FindCandidate` | singledispatch.py:30-37 | the head of the first list whose head is in no tail, if there is one |
| `C3Merge.DeleteHeads` | singledispatch.py:42-44 | the candidate leaves the front of the lists it heads |
| `C3Merge.MergeSound` | singledispatch.py:19-44 | a result holds exactly the input elements, each once, and keeps the order of every input list |
| `C3Merge.MergeComplete` | singledispatch.py:19-44 | if some order is consistent with all lists, the merge returns |
| `C3Merge.MergeFailsIff` | singledispatch.py:38-39 | where all classes count as true it raises exactly when no order is consistent |
| `C3Merge.LibraryFailsIff` | singledispatch.py:38-39 | in general it raises exactly then or when one of the classes counts as false |
| `C3Merge.MergeIsC3` | singledispatch.py:19-44 | the result is the order in which each class is the next one of the first list whose next class waits behind another in no list; the merge fails where that gets stuck |
| `Dispatch.FindImplByWalk` | singledispatch.py:132-156 | the walk with its remembered match returns the implementation of the first registered class of the composed order, unless the next class clashes with it; nothing if none is registered; an error if there is no order |
| `Dispatch.ChoiceExact` | singledispatch.py:142-156 | the three outcomes, each with its condition on the order |
| `Dispatch.AnswerExact` | singledispatch.py:173-193 | a class's own implementation first, then the choice from the composed order |
| `Dispatch.Dispatcher.DispatchOn` | singledispatch.py:173-193 | whatever is cached, the answer is the one due for the current class relation; tokens are refreshed |
| `Dispatch.Dispatcher.Register` | singledispatch.py:195-207 | the registry is updated and iterated in any order the host likes, the cache emptied, the token started by the first abstract class |
| `Dispatch.Dispatcher.Forget` | singledispatch.py:169 | a weak entry may disappear at any time |
| `Dispatch.AnswerWithoutAbcs` | singledispatch.py:132-156 | without abstract classes in the registry the answer does not depend on the class relation |
| `Sequences.FilterAppend` | singledispatch.py:98-112 | what is left of a list when some of it is dropped keeps its order |
| `Linearization.LinearizeIsC3` | singledispatch.py:46-88 | a linearization is the C3 order of the class, the linearizations of its abstract bases, of the entering abstract classes and of its other bases, and the three lists of these |
| `Linearization.LinearizeKeeps` | singledispatch.py:82-88 | it keeps the order of each of these |
| `ComposedOrder.EnteringExact` | singledispatch.py:72-81 | an abstract class enters where the class is a subclass of it and no base is |
| `ComposedOrder.OutermostExact` | singledispatch.py:98-112 | the types dispatch goes by are the related ones that no other is derived from |
| `ComposedOrder.OrderTypesAppend` | singledispatch.py:117-129 | they are put in order one after the other |
| `ComposedOrder.OrderOne` | singledispatch.py:117-124 | a type without related subclasses is added itself |
| `ComposedOrder.FoundMembers` | singledispatch.py:118-121 | what is found for a type: the types in the orders of its related subclasses |
| `ComposedOrder.LongestFirstExact` | singledispatch.py:125-126 | the longest come first, equally long ones as they were found |
| `ComposedOrder.AddNewExact` | singledispatch.py:127-129 | classes are added at their first occurrence |
| `ComposedOrder.ComposedMembers` | singledispatch.py:91-130 | the composed order holds exactly the class's own order and the orders of the registered types it is a subclass of |
| `ComposedOrder.ComposedStarts` | singledispatch.py:91-130 | it starts with the class |
| `ComposedOrder.ComposedKeeps` | singledispatch.py:91-130 | it lists no class twice and keeps the order of the bases up to the last abstract one and of the others |
| `PlainOrder.SplitExact` | singledispatch.py:59-88 | merging the bases as two lists gives the host's order of a class exactly when no ordinary base overtakes an abstract one |
| `PlainOrder.PlainExact` | singledispatch.py:47-50 | all linearizations are the host's orders exactly when that happens in no class and none counts as false |
| `PlainOrder.OvertakerInherited` | singledispatch.py:59-88 | only an ordinary base that an abstract base is derived from overtakes |
| `PlainOrder.PlainAnswer` | singledispatch.py:132-156 | without abstract classes in the registry, and where nothing is overtaken, the answer is the implementation of the first registered class of the class's own order |
| `OvertakenDispatch.DispatchDiffers` | singledispatch.py:59-88 | a class whose dispatch takes the implementation of the later of two classes of its own order |
| `OrderedMap.OrderedDict.constructor` | ordereddict.py:27-34 | a new dictionary is empty: the sentinel is linked to itself |
| `OrderedMap.OrderedDict.Clear` | ordereddict.py:36-40 | a fresh sentinel; nothing is left |
| `OrderedMap.OrderedDict.Set` | ordereddict.py:42-47 | new keys go last, known keys keep their place; the cells stay one circular list in step with the key map |
| `OrderedMap.OrderedDict.LinkLast` | ordereddict.py:44-46 | the four link assignments put a cell between the last one and the sentinel |
| `OrderedMap.OrderedDict.Remove` | ordereddict.py:49-53 | the key leaves map, list and dictionary; missing keys are an error without effect |
| `OrderedMap.OrderedDict.Unlink` | ordereddict.py:52-53 | the neighbours of a cell are linked to each other and the rest of the ring is unchanged |
| `OrderedMap.OrderedDict.Iterate` | ordereddict.py:55-60 | iteration gives the keys in order and ends |
| `OrderedMap.OrderedDict.IterateReversed` | ordereddict.py:62-67 | reverse iteration gives exactly the reverse |
| `OrderedMap.OrderedDict.PopItem` | ordereddict.py:69-77 | the first or last entry, or an error on the empty dictionary |
| `OrderedMap.Run` | ordereddict.py:36-77 | every sequence of operations does and answers what the abstract ordered map does and answers, observed through both iterations |
| `OrderedMap.PlaceOfKey` | ordereddict.py:42-53 | overwriting keeps a place, deleting and setting again moves to the end |
| `ExitStacks.ExitStack.Push` | contextlib2.py:321-339 | callbacks are stacked in order |
| `ExitStacks.ExitStack.PushPlain` | contextlib2.py:341-352 | a plain callback may raise but never suppresses |
| `ExitStacks.ExitStack.PopAll` | contextlib2.py:307-312 | all callbacks move to a new stack |
| `ExitStacks.ExitStack.Exit` | contextlib2.py:374-401 | calls made and final exception are those of the nested `with` statements; true is returned only for a received and suppressed exception |
| `ExitStacks.ExitStack.Close` | contextlib2.py:367-369 | the same without a received exception |
| `ExitStacks.InnermostFirst` | contextlib2.py:385-398 | leaving nested statements leaves the innermost first |
| `ExitStacks.OnceInReverse` | contextlib2.py:385-398 | each callback runs once, last in first out, and sees the exception pending at its nesting level |
| `ExitStacks.LastWord` | contextlib2.py:385-398 | the last callback to run that suppresses or raises decides what is pending; without one nothing changes |
| `ExitStacks.SplitStacks` | contextlib2.py:307-312 | a stack split in two unwinds like the whole |
| `ExitStacks.NothingLost` | contextlib2.py:374-401 | if nobody suppresses, an exception stays pending |
| `OneOf.Reorder` | pyparsing.py:3257-3270 | the in-place loop ends; no symbol is a prefix of a later one; the symbols are the same up to equality, without repeats |
| `OneOf.FindBlocked` | pyparsing.py:3260-3270 | the scan finds a later symbol the current one blocks, or there is none |
| `OneOf.FirstIsLongest` | pyparsing.py:2478-2499 | over such a list the first symbol that matches is a longest one |
| `OneOf.LongestMatchSame` | pyparsing.py:3223-3285 | equal symbols have the same longest match |
| `OneOf.Build` | pyparsing.py:3223-3285 | which parser is built, in terms of the distinct input symbols; it returns a longest given symbol on every text exactly unless it is a character class made from an empty symbol |
| `OneOf.ReorderedTotals` | pyparsing.py:3257-3275 | the reordered symbols are as many, and have as many characters, as the distinct input symbols |
| `OneOf.LongestMatchUnique` | pyparsing.py:3223-3285 | longest matches are the same text up to case |
| `OneOf.CharClassExact` | pyparsing.py:3275-3276 | the character class shortcut equals first match exactly when no symbol is empty |
| `OneOf.CharClassMisread` | pyparsing.py:3275-3276 | with the symbols "ab" and "" it does not |
| `OneOfEngine.SymbolExact` | pyparsing.py:1592-1671 | a literal, caseless or not, or the empty element that stands for an empty symbol, matches exactly where its symbol does |
| `OneOfEngine.EngineIsFirstMatch` | pyparsing.py:2478-2499 | first match over the elements of the symbols is first match over the symbols: token, place and place of failure |
| `OneOfEngine.EngineIsLongest` | pyparsing.py:3283-3285 | so the engine matches a longest given symbol, or none when none matches |
| `JsonPointer.EscapeRoundTrip` | jsonpointer.py:145-147 | unescaping undoes escaping, and escaped parts hold no slash |
| `JsonPointer.ParseExact` | jsonpointer.py:140-143 | a pointer text is empty or starts with a slash, and has as many parts as slashes |
| `JsonPointer.UnquoteExact` | jsonpointer.py:145 | percent-decoding changes exactly the texts that hold an escape |
| `JsonPointer.RereadLength` | jsonpointer.py:140-148 | reading an escaped part back shortens it whenever it holds a percent escape |
| `JsonPointer.PointerRoundTrip` | jsonpointer.py:260-296 | `from_parts` gives the parts back exactly when none holds a percent escape |
| `JsonPointer.PercentKeyIsLost` | jsonpointer.py:286-296 | the part `%41` comes back as `A` |
| `JsonPointer.PointerLands` | jsonpointer.py:260-296 | where the text of a pointer made from parts leads when it is read again; to the parts themselves if no part holds an escape |
| `JsonPointer.LandsAt` | jsonpointer.py:145 | a part with an escape leads to a shorter part, any other to itself |
| `JsonPointer.ContainsIsTextPrefix` | jsonpointer.py:251-267 | one pointer contains another exactly when its path text passes through the other's at a part boundary |
| `JsonPatch.ApplyUnder` | jsonpatch.py:396-468 | an operation below a path changes the document at that path only |
| `JsonPatch.ApplyExact` | jsonpatch.py:396-468 | when an operation succeeds, and what is then at its path |
| `JsonPatch.ApplyAppend` | jsonpatch.py:348-351 | operations apply one after the other, the first error stops |
| `JsonPatch.CompareValues` | jsonpatch.py:288-301 | every path at which the documents differ below objects only has its operation, of the due kind, and there are no others; if none of these paths holds an escape, they turn the value into the other one, wherever in a document it sits |
| `JsonPatch.CompareObjects` | jsonpatch.py:303-317 | the same for objects, in whatever order the keys are visited |
| `JsonPatch.PatchedEquals` | jsonpatch.py:288-317 | the patched document equals the target under the host's `==` |
| `JsonPatch.PatchedExact` | jsonpatch.py:289-290 | it is the target itself exactly when at no path both documents hold scalars that are equal and differ |
| `JsonPatch.SomeMissed` | jsonpatch.py:300-317 | if a named path holds an escape, some place where the documents differ is touched by no operation |
| `JsonPatch.DiffExact` | jsonpatch.py:322-351 | applying the diff gives a document equal to the target exactly when no path it names holds an escape |
| `JsonPatch.NothingListed` | jsonpatch.py:289-290 | there are no operations exactly when the host compares the documents as equal |
| `JsonPatch.DiffThenApply` | jsonpatch.py:322-351 | for any two documents: the diff, and what applying it gives, with both exact conditions |
| `JsonPatch.NumberForBoolean` | jsonpatch.py:289-290 | 1 and true are equal to the host: whatever operations the diff makes of `{"a": 1}` and `{"a": true}`, there are none, and the number stays |
| `JsonPatch.PercentKeyConflicts` | jsonpatch.py:300-317 | applying the diff of `{"%41": 1}` and `{}` raises a conflict |
| `CommonRun.LongestCommonRun` | jsonpatch.py:562-591 | equal ranges, no common run is longer, the last longest one wins, none exactly when nothing is shared |
| `CommonRun.FillCell` | jsonpatch.py:579-590 | each matrix cell holds the length of the longest run ending there |
| `CommonRun.EndingIsLongest` | jsonpatch.py:579-590 | no run ending there is longer |
| `Grammar.LiteralExact` | pyparsing.py:1592-1596 | a literal matches exactly where the text continues with it; at the end it is an index error |
| `Grammar.DriveMonotone` | pyparsing.py:957-1021 | an outcome once reached does not depend on the bound |
| `Grammar.YieldsOne` | pyparsing.py:957-1021 | a parse has at most one outcome |
| `Packrat.Answered` | pyparsing.py:957-1021 | a run goes on with the outcome of the element it asked for, whoever computed it |
| `Packrat.Unanswered` | pyparsing.py:957-1021 | a run that asks for an element that does not end does not end |
| `Packrat.StillSound` | pyparsing.py:1043-1051 | storing an uncached outcome keeps the cache right |
| `Packrat.Parser.ParseElement` | pyparsing.py:1063-1082 | with packrat on or off: results are the uncached results, and there is one whenever the uncached parse has one |
| `Packrat.Parser.ParseCached` | pyparsing.py:1037-1051 | hits change nothing, misses leave their outcome unless it is an index error, every entry is the uncached outcome of its key |
| `Packrat.Parser.ParseNoCache` | pyparsing.py:957-1021 | leading material, the element's rule, index errors, post-processing and actions together give the uncached outcome |
| `Packrat.Parser.SkipIgnorables` | pyparsing.py:925-936 | rounds over the ignorable elements until a round finds none |
| `Packrat.Parser.PreParse` | pyparsing.py:938-948 | ignorable elements first, then whitespace |
| `Packrat.Parser.ParseImpl` | pyparsing.py:950-951 | every class applies its own rule, over a shared cache |
| `Packrat.Parser.AndImpl` | pyparsing.py:2358-2381 | sequence with error stops |
| `Packrat.Parser.OrImpl` | pyparsing.py:2417-2444 | all trials, then the longest for real; the furthest failure otherwise |
| `Packrat.Parser.MatchFirstImpl` | pyparsing.py:2478-2499 | the first match, or the furthest failure |
| `Packrat.Parser.RepeatImpl` | pyparsing.py:2729-2784 | zero or more and one or more |
| `Packrat.Parser.OptionalImpl` | pyparsing.py:2814-2827 | the element, or the default tokens |
| `Packrat.Parser.FollowedByImpl` | pyparsing.py:2686-2688 | look ahead without moving |
| `Packrat.Parser.NotAnyImpl` | pyparsing.py:2704-2711 | look ahead for absence |
| `Packrat.Parser.EnhanceImpl` | pyparsing.py:2622-2626 | hand over to the enclosed element |
| `Meanings.Fixpoint` | pyparsing.py:957-1021 | meanings satisfy the rules of all classes |
| `Meanings.Least` | pyparsing.py:957-1021 | and are their least solution |
| `ElementLaws.ZeroOrMoreLaw` | pyparsing.py:2729-2745 | the element matched from place to place, behind ignorable elements from the second round on, until it failed; all tokens together; never a failure of the ordinary kind |
| `ElementLaws.OneOrMoreLaw` | pyparsing.py:2763-2784 | the same, but where the first round fails it fails as the element did |
| `ElementLaws.OptionalLaw` | pyparsing.py:2814-2827 | the element, or the default token where it is absent |
| `ElementLaws.FollowedByLaw` | pyparsing.py:2686-2688 | nothing, where the element is; a fatal failure counts as an ordinary one |
| `ElementLaws.NotAnyLaw` | pyparsing.py:2704-2711 | nothing, exactly where the element is not |
| `ElementLaws.EnclosingLaw` | pyparsing.py:2622-2626 | what is enclosed, or a failure where nothing is defined |
| `ElementLaws.LeafLaw` | pyparsing.py:957-1021 | the matcher's outcome, post-processed, then the action's where actions run |
| `ElementLaws.SkipLeavesNone` | pyparsing.py:925-936 | skipping ends where no ignorable element is |
| `ElementLaws.BlanksEnd` | pyparsing.py:938-948 | and blanks end at the first character that is none |
| `ListLaws.AndLaw` | pyparsing.py:2358-2381 | the members one after the other, the first without skipping again; behind an error stop a failure is a syntax error |
| `ListLaws.MatchFirstLaw` | pyparsing.py:2478-2499 | the first alternative that does not fail in the ordinary way decides; else the furthest place of failure |
| `ListLaws.OrLaw` | pyparsing.py:2417-2444 | the alternative whose trial got furthest, the first of these, parsed for real; else the furthest place of failure |
| `Splice.AndSpliceFirst` | pyparsing.py:2358-2381 | a nested sequence in first place and its members in place give the same outcome, index errors apart, where its stops are held back |
| `Splice.AndSpliceLater` | pyparsing.py:2358-2381 | the same in a later place, where its first member is asked for as any other |
| `Splice.FirstSplice` | pyparsing.py:2478-2499 | the same for alternatives, furthest failure included |
| `Splice.OrSplice` | pyparsing.py:2417-2444 | the same for longest match, trials and final parse included |
| `Leading.LeadValue` | pyparsing.py:925-948 | an element asked with leave to skip runs its rule from where its ignorable elements and blanks end, or fails as they do |
| `Leading.SameLeadMeans` | pyparsing.py:925-948 | elements that ignore copies of the same elements and skip the same blanks start at the same place |
| `Mirrors.SameValue` | pyparsing.py:957-1021 | elements with the same rule, members and leading material give the same outcome on the same answers |
| `Streamline.ListValue` | pyparsing.py:2339-2499 | a list's outcome is its class's rule over its members' outcomes |
| `Streamline.ListMeans` | pyparsing.py:2339-2499 | a plain nested list with nothing to skip means what its members give |
| `Streamline.SequenceMeans` | pyparsing.py:2339-2381 | a plain nested sequence asked in a later place means what its members give there, if its first member skips what it skips |
| `Streamline.SpliceKeepsMeaning` | pyparsing.py:2302-2310 | where the one place meets the condition, replacing a plain nested list by its members changes no parse of any element on any text, in either direction; the rest of the grammar is arbitrary |
| `Streamline.MarkKeepsMeaning` | pyparsing.py:2939-2944 | nor does marking a forward |
| `Plans.OpenedPlanned` | pyparsing.py:2302-2320 | a grammar that is planned stays planned when a list of it is opened |
| `Plans.QuietPlanned` | pyparsing.py:2292-2322 | grammars without skipping and error stops are planned |
| `Flattening.Elements.Open` | pyparsing.py:2303-2310 | one collapse step: the new members, all meanings kept |
| `Flattening.Elements.Flatten` | pyparsing.py:2302-2320 | first place, then last place, of a list of two |
| `Flattening.Elements.StreamlineElement` | pyparsing.py:2292-2322 | the whole recursion: it ends, keeps all meanings, and everything its elements lead to has been visited: lists settled, forwards marked, nothing else changed |
| `Flattening.Elements.StreamlineForward` | pyparsing.py:2939-2944 | a forward is marked before its definition is visited |
| `Flattening.Elements.StreamlineList` | pyparsing.py:2295-2320 | members first, as listed at the start, then the list |
| `Flattening.Elements.Streamline` | pyparsing.py:2292-2322 | all meanings are kept; every forward that the element leads to is marked, and with lists of at least two members every list that it leads to ends up with exactly its spine |
| `Flattening.TreeOpens` | pyparsing.py:2298-2320 | lists nested by a binary operator, from either side, become the flat list of the tips; lists of another class, with an action, a name or tracing are kept |
| `StreamlineLimits.ShapeExact` | pyparsing.py:2302-2320 | for every shape of nested list and its surroundings: some grammar of the shape changes exactly when the shape is outside the condition |
| `StreamlineLimits.EmptySequence` | pyparsing.py:2302-2310 | some grammar changes for every nested sequence without members |
| `StreamlineLimits.EmptyAlternatives` | pyparsing.py:2302-2310 | the same for alternatives without members |
| `StreamlineLimits.SkippingAlternatives` | pyparsing.py:2417-2499 | and for nested alternatives that skip something themselves |
| `StreamlineLimits.DifferingLead` | pyparsing.py:2312-2320 | and for a nested sequence in a later place that skips other material than its first member |
| `StreamlineLimits.LeakingStop` | pyparsing.py:2363-2376 | and where an error stop comes to act on members behind the nested sequence |
| `StreamlineLimits.LeadingStop` | pyparsing.py:2363-2376 | and where a nested sequence in a later place starts with an error stop that then acts |
| `StreamlineLimits.SkippingStop` | pyparsing.py:2312-2320 | and where such a sequence starts with an error stop and skips something itself |
| `StreamlineLimits.LooseSequenceChanges` | pyparsing.py:2305-2310 | a sequence that lets index errors pass around one that does not: opening it changes a parse |
| `StreamlineLimits.LooseChoiceChanges` | pyparsing.py:2305-2310 | the same for Or |
## Left out

Assumptions of the model:

- Addresses and networks of one call are of one version; the type errors for mixed or foreign
  arguments are not modelled. Older networks are known by their network address, without host bits.
- Interface objects, hashing, the `is_*` tables, packed forms, exploded texts and reverse pointers
  of addresses are not modelled, nor is `ipaddress.py`'s own `subnets` and `address_exclude`.
- The host's `sorted` is modelled by methods that sort; nothing is proved about its cost.
- The file system does not change during a resolution; it is a finite map from path texts to the
  results of reading them as links. Paths are sequences of characters. The Windows flavour, globbing
  and all methods that touch the file system are not modelled.
- Classes are compared by identity; the lists given to the C3 merge are distinct objects. Method
  resolution orders and base lists are given, ordinary `issubclass` is membership in the order, and
  the relation to abstract classes is a function of the registration counter.
- Iterating over an ordered dictionary while changing it, and its representation, equality and
  pickling, are not modelled.
- Exit callbacks do not push on the stack that is unwinding. Exception contexts, tracebacks and
  entering context managers are not modelled: only which exception is pending.
- JSON documents hold no lists. Floating-point scalars are reals: the host's parser also produces a
  not-a-number, which is not equal to itself, and signed zeros and infinities. Move, copy and test
  operations, aliasing of inserted values and documents that are not containers but can be indexed are
  not modelled. The list diff is modelled only as far as the search for a common run.
- Parse actions are functions of text, place and tokens. Named results, tracing output, failure
  actions, error messages and the element named in an error are not modelled; tokens are plain
  texts, copied rather than shared. `Each`, `SkipTo`, `Regex` and the other token classes are not
  modelled; a token class is any function from text and place to an outcome.
- In `oneOf`, regular expressions are modelled by what they match, not by their escaped text, and
  folding to upper case is one character to one character.

Contracts stated weaker than the source's behaviour:

- JsonPointer.PointerRoundTrip: percent-decoding is modelled one escape to one character, as
  Python 2's `unquote` does it; that of Python 3 decodes multi-byte sequences together, which is left
  out.
- Flattening.Elements.Streamline: the grammar has to be planned at the start: there are marks on its
  lists under which every nested list that may be opened meets the condition above, and every cycle
  passes through a forward, as the recursion itself needs. The exact result is stated only when all
  lists have at least two members, since otherwise visiting a shared list twice can open it further.
- StreamlineLimits.ShapeExact: nothing is claimed for two kinds of shape outside the condition: a
  nested sequence in a later place with nothing to skip that starts with an error stop for which there
  is nothing to act on, and one that ignores the same elements as its first member in another order
  or number. A shape's members before, inside and after are different elements.
- ElementLaws.ZeroOrMoreLaw: this and the other laws of `ElementLaws` and `ListLaws` are stated for
  elements without post-processing and action; what these do to an outcome is stated for tokens, in
  `ElementLaws.LeafLaw`.
- ComposedOrder.ComposedMembers: assumes what the host guarantees of its classes: resolution orders are
  the C3 orders of their bases' orders, bases are older than classes, and the subclasses of a class are
  derived from it. That the order starts with the class needs, besides, that no registered type it is a
  subclass of is derived from it.
- JsonPatch.PatchedExact: not-a-number scalars are left out, for which `==` is not reflexive.
