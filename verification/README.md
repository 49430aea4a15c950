# Verified model of the agience-prism core

This project models the parts of agience-prism that decide what a byte string, a leaf or a number
means, and proves what its documentation and tests promise of them. It is plain Dafny 4.11:
`dafny verify dfyconfig.toml` checks all of it.

Each component has a specification of values (functions, predicates and a state machine), the source's
own loops and objects as methods and classes proved against that specification, and theorems about the
specification.

| files | what they model |
|---|---|
| `Gf256`, `Polynomial`, `Lagrange`, `Shamir` | secret sharing over GF(256): the tables are the field, any k shares reconstruct, k - 1 shares fit every secret equally |
| `Propagation` | field spreading: a first-in first-out label-correcting search with a hop cap and a horizon ends, finds shortest allowed walks, and fires a characterised set of walks |
| `Text`, `Decimal`, `Floats`, `Sorting`, `Outcomes` | bytes, text, decimals, doubles, stable sorting and outcomes shared by the rest |
| `Structural` | deterministic CBOR (RFC 8949) with a decoder |
| `JsonNumber`, `JsonString`, `Canonical` | canonical JSON (RFC 8785) with a parser |
| `Clock`, `Reach`, `ReachConvergence`, `ReachLiveness`, `ReachHops`, `ReachLedger`, `ReachForgery`, `ReachActors` | the reach protocol: safety over every run, convergence, liveness through chains of hops, what inboxes hold at rest, what a forger cannot do, and the objects that run it |
| `Carriers`, `Leaves`, `StoreCarrier`, `Plane` | carriers, the watermark poll, light-cones, anti-entropy and reception |
| `UnionFind`, `MinHash` | near-duplicate grouping by in-place union-find |
| `Resolution` | the Otsu split against its computed null |
| `Schema` | inheritance resolution |
| `Demurrage` | cooling and realised value |

Reading conventions. Text is a list of code points, surrogates included. Floats are reals in
`Propagation`, `Resolution`, `MinHash` and `Demurrage`, and IEEE doubles by their fields in `Structural`
and `JsonNumber`. Randomness, wall clocks, bucket digests, content addresses, handlers, measured next
hops, the exponential (by its laws), the shortest digits that `repr` finds and the float reader that undoes it are
parameters. A sealed
blob is its key, its authenticated target and its plaintext (in `Reach` also an arbitrary nonce), and an
id is injective.

Where the code and its own words differ, the model follows the code:

- `merge_boundary` (src/prism/minhash.py:143) calls its value the largest estimate whose one-sigma band
  touches 1; it is the least one (`MinHash.BoundaryIsResolution`).
- `spread_graph` (src/prism/propagation.py:68-70) says a node stays queued only once. A node is queued
  and fired again by every walk of more hops, or of as many through later neighbours, that is strictly
  shorter than all earlier ones (`Propagation.VisitIff`), as with two parallel edges
  (`Propagation.LongerEdgeFirst`);
  it is queued once exactly when the first fewest-hop walk to it is a shortest one
  (`Propagation.OnceIffFirstShortest`).
- Within one wall reading, stamps of counters 0 to c sort in clock order exactly when c is below 1000000
  (`Clock.RunSortsIff`, `Clock.StampOverflow`).
- A light-cone omits what a principal itself contains when the principal is reached only as a
  descendant (`Planes.ConeIsClosure`, `Planes.PrincipalContainerNotExpanded`).
- "Child overrides parent" fails where two types inherit each other, and there only
  (`Schema.SubtypesWinIff`, `Schema.CycleBeatsSubtype`).
- A witness of no work is not invisible under a clock that runs backwards
  (`Demurrage.ZeroWorkInvisibleIff`), nor on a stored meter that lacks its frame or owes
  (`Demurrage.IdleEventsInvisibleIff`).
- `reach` (src/prism/reach.py:26-28) says a forged cleartext link is caught on open. The seal of a need
  binds `to`, `cap` and `derived_from`, that of evidence `to`, `in_reply_to` and `root`; the `id`, `root`,
  `path`, `origin` and `hlc` of a need are not bound (`ReachForgery.NeedFieldsBound`,
  `ReachForgery.ForgedRootIsFiled`).
- Canonical JSON forgets insertion order unless two keys of a dictionary, such as 1 and "1", are one text
  (`Canonical.OrderIrrelevantIff`).

## Model

| member | source | states |
|---|---|---|
| `Gf256.GeneratorOrder` | src/prism/trust/shamir.py:24-32 | 3 generates the multiplicative group: no exponent strictly between 0 and 255 gives one |
| `Gf256.EveryByteIsAPower` | src/prism/trust/shamir.py:27-32 | every non-zero byte is a power of 3 below 255, so the table loop fills every logarithm |
| `Gf256.LogOfPower` | src/prism/trust/shamir.py:29-30 | the logarithm undoes the power, below 255 |
| `Gf256.MultiplyDistributes` | src/prism/trust/shamir.py:35-38 | table multiplication distributes over xor |
| `Gf256.MultiplyAssociative` | src/prism/trust/shamir.py:35-38 | table multiplication is associative |
| `Gf256.MultiplyIsPolynomialProduct` | src/prism/trust/shamir.py:24-38 | what the tables multiply is polynomial multiplication modulo 0x11B, for all 65536 pairs |
| `Gf256.QuotientInverts` | src/prism/trust/shamir.py:41-46 | division by a non-zero byte undoes multiplication by it, in both orders |
| `Polynomial.InterpolationUnique` | src/prism/trust/shamir.py:70-71 | two polynomials of one length, at most the number of distinct points, that agree on all of them are equal |
| `Polynomial.InterpolationExists` | src/prism/trust/shamir.py:70-71 | through any values at distinct points passes a polynomial of that length |
| `Lagrange.WeightsSumToOne` | src/prism/trust/shamir.py:86-93 | the Lagrange weights at zero sum to one |
| `Lagrange.InterpolationAtZero` | src/prism/trust/shamir.py:86-93 | the weighted sum of the values of p at at least |p| distinct non-zero points is p at zero |
| `Shamir.Tables.constructor` | src/prism/trust/shamir.py:24-32 | the loop builds the exponent table of powers of 3 and the logarithm table inverse to it |
| `Shamir.Tables.Mul` | src/prism/trust/shamir.py:35-38 | a product read from the tables is the field product |
| `Shamir.Tables.Div` | src/prism/trust/shamir.py:41-46 | a quotient read from the tables is the field quotient; zero over anything is zero; a zero divisor raises only after that |
| `Shamir.Tables.Evaluate` | src/prism/trust/shamir.py:49-54 | Horner's loop evaluates the polynomial |
| `Shamir.Tables.Split` | src/prism/trust/shamir.py:57-67 | a threshold is accepted exactly when 2 <= k <= n <= 255, whatever the secret; the shares are at 1..n and are the values there of the coefficient polynomials |
| `Shamir.Tables.Combine` | src/prism/trust/shamir.py:70-95 | fewer than two shares, a coordinate outside 1..255, a repeated one and unequal lengths each raise, in that order and for nothing else; otherwise the Lagrange sum byte by byte |
| `Shamir.Tables.CombineByte` | src/prism/trust/shamir.py:83-94 | one byte of the secret is the weighted sum of that column |
| `Shamir.Tables.Basis` | src/prism/trust/shamir.py:86-92 | the two running products are the numerator and denominator of the i-th basis polynomial at zero |
| `Shamir.Reconstruction` | src/prism/trust/shamir.py:49-95 | any k or more distinct shares of one split, in any order, combine to exactly the secret, for every secret and every choice of coefficients |
| `Shamir.CoefficientsFit` | src/prism/trust/shamir.py:49-67 | for distinct non-zero points, any values and any secret byte exactly one list of coefficients passes through them |
| `Shamir.SameSharesIffFits` | src/prism/trust/shamir.py:57-67 | a secret and coefficients give a coalition the same shares exactly when their polynomials pass through those shares |
| `Shamir.Secrecy` | src/prism/trust/shamir.py:3-5 | whatever k - 1 shares are held and whatever other secret of the length is considered, exactly one choice of coefficients splits it into the very same shares |
| `Propagation.UnprunedLeavesWalk` | src/prism/propagation.py:88-95 | an edge the seen-guard lets through leads off the walk it extends, so every queued entry traces a simple walk |
| `Propagation.VisitsAreBounded` | src/prism/propagation.py:79-95 | the visits are distinct simple walks, so there are at most as many as the finitely many simple walks: the termination measure, cycles and zero-length edges included |
| `Propagation.PopsSettle` | src/prism/propagation.py:79-95 | the search ends, and any number of pops that empties the queue gives the whole list of visits |
| `Propagation.PrunedIsDominated` | src/prism/propagation.py:91-92 | an edge the seen-guard prunes leads to an arrival that an earlier visit dominates: no longer, and no later in the order of hops and then neighbours |
| `Propagation.QueueStepsOrdered` | src/prism/propagation.py:79-95 | first in, first out keeps the queued hop counts within one of each other |
| `Propagation.ExpandedIsComplete` | src/prism/propagation.py:80-95 | once every visit below the cap is expanded, every allowed walk is dominated by a visit |
| `Propagation.HistoryIsNearest` | src/prism/propagation.py:78-95 | then `seen` holds exactly the nodes an allowed walk reaches, each at the least length of such a walk |
| `Propagation.Expand` | src/prism/propagation.py:84-95 | the inner loop visits exactly the usable edges within the horizon that reach their node nearer than every visit before, in neighbour order; seen, fired and queue follow those visits |
| `Propagation.Search` | src/prism/propagation.py:77-95 | one seed's search fires exactly the visits of the first-in first-out search, in order, and ends with `seen` the shortest allowed lengths |
| `Propagation.VisitIff` | src/prism/propagation.py:79-95 | a walk is visited exactly when it is allowed and no allowed walk to its node is both earlier (fewer hops, then neighbour order) and at most as long |
| `Propagation.FirstVisit` | src/prism/propagation.py:79-95 | the first visit of a node is the first fewest-hop allowed walk to it in neighbour order |
| `Propagation.OnceIffFirstShortest` | src/prism/propagation.py:68-70 | a reached node is queued and fired exactly once if and only if the first fewest-hop allowed walk to it is a shortest allowed walk |
| `Propagation.EachOnceIff` | src/prism/propagation.py:68-70 | all reached nodes are queued once if and only if that holds of every reached node |
| `Propagation.EqualEdgesOnce` | src/prism/propagation.py:68-70 | with edges of one length every reached node is queued once |
| `Propagation.OnceReceives` | src/prism/propagation.py:66-68 | a node queued once receives from the seed exactly its energy screened over a shortest allowed walk |
| `Propagation.LongerEdgeFirst` | src/prism/propagation.py:68-70 | two parallel edges of lengths 5 and 3: the far node is fired twice with the longer edge first and once with the shorter first |
| `Propagation.SpreadGraph` | src/prism/propagation.py:56-96 | the field is the one the seeds, neighbour lists, kernel and bounds determine, and its nodes are the seeds and those that some walk of positive finite edges reaches within the horizon and the cap, whatever they are |
| `Propagation.FieldIsTotal` | src/prism/propagation.py:64-96 | each node holds its raw seed energy plus, for every visit of its search, energy times kernel of the length of that walk |
| `Propagation.VisitedIffReached` | src/prism/propagation.py:79-95 | a search visits a node exactly when a walk within the hop cap and the horizon reaches it |
| `Propagation.FiredIffLit` | src/prism/propagation.py:84-95 | a node is fired exactly when it is a seed or a walk from a seed, every hop a listed edge of usable length, ends there with total length at most the horizon and no more hops than the cap; without a bound, with any length or number of hops |
| `Propagation.FieldOfNearest` | src/prism/propagation.py:56-96 | a node whose first fewest-hop walk from each seed is also a shortest one, or that a seed does not reach, holds the raw seed energies at it plus the sum over the seeds of energy times kernel of the shortest length |
| `Text.Utf8RoundTrip` | src/prism/structural.py:105-108 | decoding UTF-8 undoes encoding |
| `Text.Utf8Order` | src/prism/carriers.py:37-49 | UTF-8 byte order is code point order |
| `Text.Utf16Order` | src/prism/canonical.py:68 | sorting by UTF-16BE bytes is the UTF-16 code-unit order, total on encodable text |
| `Text.OrdersDisagree` | src/prism/canonical.py:12-13 | code-unit and code-point order of two characters disagree exactly when one is astral and the other lies above the surrogates |
| `Text.BigEndianOrder` | src/prism/structural.py:86-93 | numbers of one width are ordered as their big-endian bytes are, which fixes those bytes |
| `Structural.HeadRoundTrip` | src/prism/structural.py:76-93 | a head decodes to its major type and argument |
| `Structural.HeadIsShortest` | src/prism/structural.py:76-93 | no byte string that decodes to the same major type and argument is shorter |
| `Structural.MagnitudeValue` | src/prism/structural.py:192-194 | the bignum magnitude denotes the number and, unless it is zero, has no leading zero byte |
| `Structural.BignumRoundTrip` | src/prism/structural.py:178-197 | a bignum of either sign decodes to the integer |
| `Structural.RoundTrip` | src/prism/structural.py:96-204 | the decoder undoes the encoder up to the normal form: integral floats as integers, tuples as lists, maps in key order |
| `Structural.InsertionOrderIrrelevant` | src/prism/structural.py:116-140 | values that differ in the insertion order of their dictionaries alone, at every depth, are addressable together and have the same bytes; where all keys are encodable text a failure is the same failure |
| `Structural.FirstBadKeyIsReported` | src/prism/structural.py:116-140 | two keys that are both refused: which error is raised depends on which comes first |
| `Structural.AddressableIff` | src/prism/structural.py:76-175 | a value has an address exactly when no part of it, at any depth, is a non-finite number, text with a surrogate, a key that is not text, an unsupported object, an integer of 2^64 bytes or more, or anything of 2^64 items or bytes; and a failure is the error of such a part |
| `Structural.FirstItemIsReported` | src/prism/structural.py:112-115 | of the items of a list or tuple, the first to fail is reported |
| `Structural.FirstKeyIsReported` | src/prism/structural.py:116-136 | keys are checked in insertion order, before the length and every value |
| `Structural.KeysAscend` | src/prism/structural.py:116-140 | what the encoding of a value with distinct keys decodes to lists, in every map at every depth, keys whose encodings strictly increase as bytes |
| `Structural.IntegralFloatIsInt` | src/prism/structural.py:153-163 | a float whose value is an integer has the bytes of that integer |
| `Structural.InitialByte` | src/prism/structural.py:76-197 | the encoding of each kind of value begins with its major type, simple value, bignum tag or float64 head |
| `Structural.EncodeNormalized` | src/prism/structural.py:153-175 | a normal form has the bytes of the value it came from |
| `Structural.SameBytesIffSameNormalForm` | src/prism/structural.py:200-204 | two addressable values have the same bytes exactly when they have the same normal form |
| `Structural.PrefixFree` | src/prism/structural.py:200-204 | no encoding is a proper prefix of another |
| `Structural.Output.EmitHead` | src/prism/structural.py:76-93 | appends the head, or raises for 2^64 and more |
| `Structural.Output.EmitBignum` | src/prism/structural.py:178-197 | appends the tagged magnitude |
| `Structural.Output.EmitFloat` | src/prism/structural.py:159-175 | raises for non-finite floats, and otherwise appends the integer or the float64 form |
| `Structural.Output.EmitArray` | src/prism/structural.py:112-115 | the loop appends head and items, stopping at the first error |
| `Structural.Output.EmitMap` | src/prism/structural.py:116-140 | checks all keys first, in insertion order, then appends the items in key order |
| `Structural.Output.Emit` | src/prism/structural.py:96-150 | appends exactly the specified bytes of any value, or reports exactly its error |
| `Structural.StructuralEncode` | src/prism/structural.py:200-204 | the joined list is the specified encoding |
| `Floats.ToIntIsExact` | src/prism/structural.py:162-163 | the integer of an integral double is its value |
| `Floats.IntegralIff` | src/prism/structural.py:162-163 | the floats treated as integers are exactly those whose value is an integer |
| `JsonNumber.LayoutParses` | src/prism/canonical.py:40-52 | in the plain, the leading-zero and the exponent form the text reads back as the very sign, digits and exponent it was given |
| `JsonNumber.LayoutSpells` | src/prism/canonical.py:40-52 | the text of a decimal has its sign, its value, no leading or trailing zero, and an exponent exactly when its magnitude is below 10^-6 or at least 10^21, then one digit before the point |
| `JsonNumber.IntParses` | src/prism/canonical.py:36-37 | the exact digits of an integer read back as that integer |
| `JsonNumber.NumberParses` | src/prism/canonical.py:27-52 | every finite float's text reads back as the decimal it is to denote |
| `JsonNumber.NumberTextValue` | src/prism/canonical.py:34-39 | the text of an integral float below 10^21 denotes exactly its value, any other its shortest decimal |
| `JsonNumber.NumberSpells` | src/prism/canonical.py:27-52 | and so has every float's text, for the number it denotes |
| `JsonNumber.IntTextIsLayout` | src/prism/canonical.py:36-37 | below 10^21 the exact integer digits are what the plain layout of the same decimal writes |
| `JsonNumber.NumberTextIsDecimalText` | src/prism/canonical.py:27-52 | a number's text depends only on the decimal it denotes: one number, one text |
| `JsonNumber.SameTextIffSameNumber` | src/prism/canonical.py:27-52 | given that reading undoes repr, two finite floats have one text exactly when they are equal or both zero |
| `JsonString.QuotedParses` | src/prism/canonical.py:62-63 | the parser undoes string quoting, for every text, control characters and lone surrogates included |
| `JsonString.QuotedIsOnly` | src/prism/canonical.py:62-63 | of all literals that read as a text, the one written is the shortest, and among the shortest the last in code point order, so lower-case hexadecimal: no other literal is both |
| `Canonical.CanonicalParses` | src/prism/canonical.py:55-91 | a JSON parser reads the canonical text back as exactly what the value says, members in key order |
| `Canonical.CanonicalIsPrint` | src/prism/canonical.py:55-91 | the text is a function of what the value says alone |
| `Canonical.SameTextIffSameJson` | src/prism/canonical.py:87-91 | two values get one text exactly when they say the same JSON |
| `Canonical.SameTextIffSameMeaning` | src/prism/canonical.py:87-91 | given that reading undoes repr, two values get one text exactly when they have the same members, items, strings and floats, zeros aside |
| `Canonical.SameBytesIffSameJson` | src/prism/canonical.py:94-96 | and the same holds of the UTF-8 bytes an address is taken over |
| `Canonical.PrintableIff` | src/prism/canonical.py:55-91 | a value has a text exactly when no part of it, at any depth, is a non-finite number or a dictionary key with a surrogate; and a failure is the error of such a part |
| `Canonical.KeysAreSortedFirst` | src/prism/canonical.py:67-69 | a key with a surrogate raises before anything else of its dictionary is looked at |
| `Canonical.InsertionOrderIrrelevant` | src/prism/canonical.py:67-77 | values that differ in the insertion order of their dictionaries alone, at every depth, get the same text, or the same error, when the keys of each dictionary are distinct as text |
| `Canonical.OrderIrrelevantIff` | src/prism/canonical.py:67-77 | a dictionary with printable values has one text in every insertion order exactly when its entries under one key text have one text |
| `Canonical.KeysInCodeUnitOrder` | src/prism/canonical.py:68 | members are printed in strictly increasing UTF-16 code-unit order of their keys |
| `Canonical.Buffer.EmitList` | src/prism/canonical.py:78-84 | the loop appends the bracketed, comma-separated texts, stopping at the first error |
| `Canonical.Buffer.EmitMap` | src/prism/canonical.py:67-77 | raises for a key that cannot be encoded before appending anything, then appends the members in key order |
| `Canonical.Buffer.Emit` | src/prism/canonical.py:55-86 | appends exactly the specified text of any value, or reports exactly its error |
| `Canonical.CanonicalString` | src/prism/canonical.py:87-91 | the joined buffer is the specified text |
| `Clock.TickIsLater` | src/prism/plane.py:52-58 | in any run of ticks every reading is later than all before it, however the wall clock jumps |
| `Clock.AfterReads` | src/prism/plane.py:52-58 | after any run of ticks the clock reads the greatest wall seen, and the counter is the ticks since that was first reached |
| `Clock.StampReads` | src/prism/plane.py:58 | a stamp is the wall reading in twenty digits, a point, the counter in six, a point and the node, as long as both fit |
| `Clock.HybridClock.TickAt` | src/prism/plane.py:52-58 | a later wall reading becomes the clock and resets the counter; any other keeps it and counts one up |
| `Clock.StampOrder` | src/prism/plane.py:58 | between two wall readings below 10^20, and within one while the counter is below 10^6, the text order of stamps is the clock order, whatever the nodes |
| `Clock.NextStampSortsLater` | src/prism/plane.py:58 | counting within one wall reading, the next stamp sorts later exactly when it is no longer than this one |
| `Clock.StampOverflow` | src/prism/plane.py:58 | the stamp of counter 1000000 does not sort after the stamp of counter 999999 of the same wall reading |
| `Clock.RunSortsIff` | src/prism/plane.py:58 | within one wall reading the stamps of counters 0 to c sort in clock order exactly when c is below 1000000 |
| `Clock.TicksSortIff` | src/prism/plane.py:52-58 | over any run of ticks of a fresh clock, however its wall readings jump, the stamps sort in the order they were drawn exactly when no counter reaches 1000000 |
| `Reach.SameIdSameLeaf` | src/prism/reach.py:94-135 | two leaves of good provenance with one id are one leaf, on whichever carriers |
| `Reach.IdsNameLeaves` | src/prism/reach.py:94-135 | in every reachable state equal ids on any carriers mean equal leaves |
| `Reach.AddLeaf` | src/prism/carriers.py:59-64 | putting a leaf of good provenance keeps a good log good and adds that leaf and no other, whether or not its id was there |
| `Reach.HandleKeepsLog` | src/prism/reach.py:213-238 | handling one accepted need keeps the log good and adds at most its evidence and its residual, stamped in order |
| `Reach.PumpKeepsLog` | src/prism/reach.py:315-329 | a pump over everything polled only appends leaves of its own node, keeps the log good and handles no need twice |
| `ReachHops.PumpPropagates` | src/prism/reach.py:194-240 | a pump handles exactly the new needs it polls that its provider can open; for each the carrier then holds the evidence of its band and, when the reply has a residual and a next hop off the path, a need for that hop with that residual sealed, the same root, derived from it, the path one longer; and nothing else was added |
| `ReachHops.AbsorbCollects` | src/prism/reach.py:364-404 | an inbox files and remembers exactly the evidence it reaches, can open and has not seen, each under its root |
| `ReachHops.RunsAreConsequent` | src/prism/reach.py:194-240 | so in every state of every run on one carrier each handled need has its evidence and its residual on the carrier |
| `Reach.ReconcileMerges` | src/prism/carriers.py:286-302 | reconciling two carriers leaves both with the union of their leaves, still good |
| `Reach.StepKeepsInv` | src/prism/reach.py:149-163 | each step (reach, provider pump, inbox absorb, reconcile) keeps the whole invariant |
| `Reach.Safety` | src/prism/reach.py:101-125 | in every state of every run: need paths are duplicate-free and end at `to`, fresh needs are their own roots, derived needs have their parent on the carrier with the same root and a path one shorter, evidence answers a need on the carrier with the same root, and no provider handles a need twice |
| `Reach.TraceToRoot` | src/prism/reach.py:230-238 | a need's chain leads back, on its carrier and through served capabilities only, to the fresh need its root names |
| `Reach.EvidenceAnswersHandle` | src/prism/reach.py:364-381 | whatever an inbox filed under a handle was discharged for a need whose chain starts at that handle |
| `ReachConvergence.TickLengthens` | src/prism/reach.py:230-238 | one tick makes every pending path at least one longer |
| `ReachConvergence.TickInOrder` | src/prism/pump.py:79-89 | a tick drives the reactors in the order they were added, each pumping its providers in theirs before it absorbs |
| `ReachConvergence.PendingBound` | src/prism/reach.py:230-233 | the path guard keeps a pending path no longer than the number of distinct served capabilities |
| `ReachConvergence.TicksQuiet` | src/prism/pump.py:51-89 | after as many ticks as distinct served capabilities no need is pending |
| `ReachConvergence.FixedPoint` | src/prism/pump.py:51-89 | one more tick reaches a fixed point of carrier, seen-sets, clocks and inboxes, whatever the handlers answer and route |
| `ReachConvergence.AtRestForEver` | src/prism/pump.py:51-89 | and every later tick leaves it so |
| `ReachActors.Provider.Discharge` | src/prism/reach.py:217-223 | the evidence artifact is stamped and put |
| `ReachActors.Provider.Transmit` | src/prism/reach.py:233-238 | the residual is put unless its next hop is on the path |
| `ReachActors.Provider.OnLeaf` | src/prism/reach.py:194-240 | fields, clock and carrier become what the state machine says of one leaf, and the result is true exactly when the leaf is accepted and its handler absorbs |
| `ReachActors.Provider.Pump` | src/prism/reach.py:315-329 | the loop over the polled leaves is the pump of the state machine, discharging onto `out`, and the result counts the leaves that discharged evidence |
| `ReachActors.CountIsAbsorbing` | src/prism/reach.py:315-329 | that count is the number of needs newly handled with a band, each once |
| `ReachActors.Requester.OnLeaf` | src/prism/reach.py:364-381 | evidence that is addressed, opened, not forged and new is remembered, and its band and record are appended under its root and nowhere else; anything else changes nothing |
| `ReachActors.Requester.Absorb` | src/prism/reach.py:399-404 | absorbs every leaf of the carrier in turn |
| `ReachActors.Reactor.Serve` | src/prism/reach.py:442-448 | adds a fresh provider |
| `ReachActors.Reactor.Place` | src/prism/reach.py:450-453 | places a fresh need and returns its id |
| `ReachActors.Reactor.Pump` | src/prism/reach.py:471-476 | pumps its providers in order, then absorbs |
| `ReachActors.PumpLoop.Add` | src/prism/pump.py:45-49 | appends one reactor and changes no other |
| `ReachActors.PumpLoop.Tick` | src/prism/pump.py:79-89 | one cadence over objects is exactly one tick of the state machine |
| `ReachActors.PumpLoop.Resolve` | src/prism/pump.py:125-143 | places the need and ticks until its evidence first returns, at least once and at most max_ticks times |
| `ReachActors.SilenceIsFinal` | src/prism/pump.py:125-143 | a resolve silent for more ticks than there are distinct served capabilities would be silent for ever |
| `ReachLiveness.PendingIsAnswered` | src/prism/reach.py:471-476 | a pending need that its provider's handler absorbs is answered, from the second tick on, in every inbox that reaches the provider's ground |
| `ReachLiveness.PendingIsAnsweredAtOnce` | src/prism/reach.py:471-476 | and after one tick where the provider's reactor is the asking one or was added before it |
| `ReachLiveness.PlacedIsAnswered` | src/prism/pump.py:125-143 | a placed need is answered from the second tick on when a provider of its capability reaches it, has not seen its id and absorbs it, and the requester reaches that ground |
| `ReachHops.ChainAnswers` | src/prism/reach.py:230-238 | a need that a chain of providers hands on, each to the next, is answered in the inbox of its root once there were more ticks than hops, when the last provider absorbs it on a ground the inbox reaches |
| `ReachHops.PlacedChainAnswers` | src/prism/pump.py:125-143 | and so is a placed need, by any chain of any length |
| `ReachLedger.RunsKeepLedger` | src/prism/reach.py:213-223 | in every run on one carrier each band a provider absorbed is on the carrier as evidence for that need, and there is never more evidence for a need than providers that absorbed a band of it |
| `ReachLedger.RecordIsOfHandling` | src/prism/reach.py:364-381 | every record filed under a root replies to a need of that root which some provider absorbed a band of, on a ground the inbox reaches |
| `ReachLedger.HandledIsReceived` | src/prism/reach.py:364-381 | every band absorbed for a ground that an inbox reaches is filed there under its root once the inbox has absorbed the carrier |
| `ReachLedger.RestingRecords` | src/prism/pump.py:51-89 | from fresh reactors on one carrier, at rest: an inbox holds a record for a need exactly when the need was handled with a band on a ground it reaches, no more than such handlings, and exactly one where no capability has two providers |
| `ReachForgery.ForgeryContained` | src/prism/reach.py:20-28 | in every state of every run with a forger who reuses sealed bodies: all seals are good, every filed band has a seal that binds its target, need and root, and no provider handles an id twice |
| `ReachForgery.FiledWasAsked` | src/prism/reach.py:364-381 | even then, a need of that id and root, sealed for a served capability, is on a carrier for every filed band |
| `ReachForgery.AcceptedWasSealed` | src/prism/reach.py:194-208 | even then, what a provider accepts has payload, target, capability and parent as sealed, and its parent was asked of a served capability |
| `ReachForgery.NeedFieldsBound` | src/prism/reach.py:194-208 | a need with a copied seal is accepted exactly when target, capability and parent are copied and its id is new |
| `ReachForgery.EvidenceFieldsBound` | src/prism/reach.py:364-375 | evidence with a copied seal is filed exactly when target, need and root are copied and its id is new |
| `ReachForgery.ForgedRootIsFiled` | src/prism/reach.py:26-28 | so a need copied under another root is answered, and its band filed, under that root |
| `ReachActors.ResolveFinds` | src/prism/pump.py:125-143 | so resolve, given two ticks or more, finds the evidence, and within two |
| `ReachActors.ResolveFindsThroughChain` | src/prism/pump.py:125-143 | and through a chain of hops resolve finds the evidence within one tick more than the chain is long |
| `Carriers.StoredKeepsUnique` | src/prism/carriers.py:59-64 | a put keeps ids unique, is idempotent and never rewrites |
| `Carriers.InMemoryCarrier.Put` | src/prism/carriers.py:59-64 | appends the leaf unless its id is there, in map and order alike |
| `Carriers.InMemoryCarrier.Poll` | src/prism/carriers.py:66-67 | returns the log in insertion order |
| `Carriers.Reconcile` | src/prism/carriers.py:286-302 | both carriers end with the union, each keeping its own, and the count is of the leaves moved, in whatever order the sets are walked |
| `Leaves.StampOrderIsCodePoints` | src/prism/carriers.py:34-49 | the byte order of `(hlc, id)` is their code point order |
| `Leaves.StampAntisymmetric` | src/prism/carriers.py:34-49 | only leaves of one stamp and one id sort alike, so the order is total |
| `Leaves.StampSortsFirst` | src/prism/carriers.py:34-49 | the smaller stamp, or of equal stamps the smaller id, sorts first |
| `Leaves.SortedLeavesAscend` | src/prism/carriers.py:34-49 | leaves in leaf order ascend by stamp and then by id |
| `Leaves.SortedMessagesAscend` | src/prism/plane.py:230 | and so do messages |
| `StoreCarriers.GrowthKeepsFolded` | src/prism/carriers.py:202-207 | a row written behind the carrier's back cannot slip under its cursor |
| `StoreCarriers.FoldRow` | src/prism/carriers.py:253-262 | folding the next row of a page keeps the index complete up to the new cursor |
| `StoreCarriers.NothingPast` | src/prism/carriers.py:248-252 | with no row past the cursor the index is the whole plane |
| `StoreCarriers.EveryRun` | src/prism/carriers.py:223-269 | over every interleaving of writes and pages of any size the cursor never skips a leaf, and whenever nothing is left past it the index sorts to the full read |
| `StoreCarriers.StoreCarrier.Put` | src/prism/carriers.py:216-221 | writes the leaf unless its id is taken |
| `StoreCarriers.StoreCarrier.Poll` | src/prism/carriers.py:223-269 | both paths return the whole plane of a stamping store, each leaf once, with stamps ascending and ids ascending among equal stamps |
| `StoreCarriers.StoreCarrier.ReadPages` | src/prism/carriers.py:248-268 | the page loop ends, a store that stamps nothing included, and leaves nothing past the cursor of one that stamps |
| `StoreCarriers.StoreCarrier.FoldRows` | src/prism/carriers.py:253-262 | one page is folded and the cursor moves to its last row |
| `StoreCarriers.StoreCarrier.Ids` | src/prism/carriers.py:271-277 | exactly the ids of the stored leaves |
| `StoreCarriers.StoreCarrier.Get` | src/prism/carriers.py:279-283 | the stored leaf of that id, if there is one |
| `Planes.Lightcone.DefineGroup` | src/prism/plane.py:101-103 | adds the contained names to the group |
| `Planes.Lightcone.Join` | src/prism/plane.py:105-108 | adds the group to the principal |
| `Planes.Lightcone.Cone` | src/prism/plane.py:110-128 | the walk returns the principal and exactly what lies in its groups at any depth, not descending through the principal itself |
| `Planes.ConeIsClosure` | src/prism/plane.py:110-128 | that is the whole descent closure exactly when the principal was granted itself, lies inside none of its groups, or directly contains only itself and what its groups reach without passing it |
| `Planes.PrincipalContainerNotExpanded` | src/prism/plane.py:121-128 | a principal that contains something and sits inside its own group does not reach it |
| `Planes.FirstPass` | src/prism/plane.py:252-257 | one pass leaves carrier 0 with the union of all and carrier i with that of carriers 0 to i |
| `Planes.SecondPass` | src/prism/plane.py:252-257 | once the first carrier is full a pass fills every other |
| `Planes.ThreePasses` | src/prism/plane.py:252-257 | after one pass the first carrier holds the union, after two all do, and a third moves nothing |
| `Planes.PassKeepsUnion` | src/prism/plane.py:252-257 | a pass loses and invents nothing |
| `Planes.MovedAreGained` | src/prism/plane.py:252-257 | the count of a pass is exactly the number of leaves that carriers gain in it |
| `Planes.DeliveryUnique` | src/prism/plane.py:214-230 | what is stored and who reads determine the delivered list |
| `Planes.DeliveredIff` | src/prism/plane.py:172-230 | a delivery holds a message for every leaf whose target the reader reaches and whose blob is sealed for that target, or a Fernet token for any, under the key of a group it reaches, and no other |
| `Planes.FirstCarrierWins` | src/prism/plane.py:259-264 | where carriers disagree about an id, the first that holds it says which leaf is read |
| `Planes.SentIsReceived` | src/prism/plane.py:206-230 | a sent signal reaches exactly the principals whose light-cone reaches its target |
| `Planes.PutIsReceived` | src/prism/plane.py:214-230 | a leaf with a new id put on any carrier adds to what a principal receives the one message it opens to, and nothing when it opens to none |
| `Planes.SendReachesExactly` | src/prism/plane.py:206-230 | a send adds its message, once, for every principal whose light-cone holds the target, and changes nothing for anyone else |
| `Planes.LiftedChangesNothing` | src/prism/plane.py:138-140 | whoever reads, the carriers deliver the same list with and without their leaves whose blob was sealed for another target |
| `Planes.ReceptionStable` | src/prism/plane.py:259-264 | a principal receives the same list before, between and after passes and from the carriers in any order |
| `Planes.Receive` | src/prism/plane.py:214-230 | each readable message once, with stamps ascending and ids ascending among equal stamps |
| `Planes.Plane.Send` | src/prism/plane.py:248-250 | one leaf sealed for its target on the first carrier, from the node when no sender or an empty one is named; a taken id changes nothing |
| `Planes.Plane.Reconcile` | src/prism/plane.py:252-257 | the loop does one pass and counts the leaves it moves |
| `Planes.Plane.ReceiveAll` | src/prism/plane.py:259-264 | delivers from all carriers merged, the first one winning, stamps ascending and ids ascending among equal stamps |
| `UnionFind.HalvingKeepsRoot` | src/prism/minhash.py:189-193 | halving one step keeps the parent list acyclic and every root unchanged |
| `UnionFind.Find` | src/prism/minhash.py:189-193 | climbing with path halving returns the root and changes no root |
| `UnionFind.UnionRoots` | src/prism/minhash.py:203 | hanging one root under another changes the root of exactly that root's tree |
| `UnionFind.SameRootIffConnected` | src/prism/minhash.py:186-203 | two nodes share a root exactly when a path of verified pairs connects them |
| `UnionFind.UnionRepresents` | src/prism/minhash.py:202-203 | joining the trees of a pair represents the edges with that pair |
| `UnionFind.RedundantEdge` | src/prism/minhash.py:200-201 | a pair inside one tree changes nothing |
| `MinHash.BoundaryIsResolution` | src/prism/minhash.py:140-150 | an estimate's one-sigma band reaches 1 exactly from the merge boundary upwards |
| `MinHash.EstimateIsShare` | src/prism/minhash.py:80-110 | the estimate is the share of positions that agree, and zero for signatures that are empty, all zero or of different lengths |
| `MinHash.ChunkIs` | src/prism/minhash.py:183 | band b holds the values b * rows to b * rows + rows - 1, as far as the signature goes |
| `MinHash.MergedIff` | src/prism/minhash.py:178-203 | a verified pair: both are measurements, some band digests alike, the first of the pair is the first in that bucket, and their estimate is at or above the threshold |
| `MinHash.DefaultsAre` | src/prism/minhash.py:168-171 | an absent threshold is k/(k + 1) for signatures of k values, 128 when the first is empty; rows are the length divided by the bands, rounded down |
| `MinHash.BandBytesInjective` | src/prism/minhash.py:44-56 | the fixed width makes a band's bytes determine its values |
| `MinHash.FillBuckets` | src/prism/minhash.py:178-185 | each bucket lists, ascending, the non-degenerate signatures with its band and digest |
| `MinHash.JoinBucket` | src/prism/minhash.py:199-203 | one bucket's loop joins its first member to every member at or above the threshold |
| `MinHash.JoinBuckets` | src/prism/minhash.py:195-203 | the loops leave a forest whose trees are the components of the verified pairs |
| `MinHash.CollectGroups` | src/prism/minhash.py:204-207 | the lists longer than one are exactly the components larger than one |
| `MinHash.GroupSignatures` | src/prism/minhash.py:161-207 | for any bucket digest the groups are exactly the components larger than one of the graph joining each bucket's first member to every member at or above the threshold |
| `MinHash.GroupedIff` | src/prism/minhash.py:186-207 | two items share a group exactly when a chain of verified pairs joins them; groups have more than one item, list each once and ascending, and come in the order of their first items |
| `MinHash.DegenerateUngrouped` | src/prism/minhash.py:80-85 | a degenerate signature is in no group |
| `MinHash.DefaultGroupsAreEqual` | src/prism/minhash.py:168-170 | with the default threshold, members of one group have equal signatures |
| `Resolution.TotalVariance` | src/prism/resolution.py:110-113 | the total variance is the between-class variance plus what each group varies about its own mean, so the ratio is in [0, 1] and the clamp is the identity |
| `Resolution.Partition` | src/prism/resolution.py:82-113 | the running-sum loop returns the first split of globally maximal between-class variance and its ratio |
| `Resolution.PartitionAffine` | src/prism/resolution.py:82-113 | cut and ratio are unchanged by x -> a*x + b for every a other than zero |
| `Resolution.RampBetween` | src/prism/resolution.py:126-127 | splitting the ramp of n after i explains i(n - i)n/4 |
| `Resolution.RampVariance` | src/prism/resolution.py:126-127 | the total variance of the ramp is n(n^2 - 1)/12 |
| `Resolution.RampPartition` | src/prism/resolution.py:116-127 | the null separability is 3/4 for odd n and 3n^2/(4(n^2 - 1)) for even n, cut at n/2 |
| `Resolution.NullSeparability` | src/prism/resolution.py:116-127 | running the same partition on the ramp yields that closed form |
| `Resolution.TieBreakNonNegative` | src/prism/resolution.py:141-178 | the tie-break is never negative |
| `Resolution.TieBreakScale` | src/prism/resolution.py:171-178 | and does not depend on the scale of the series |
| `Resolution.StepTieBreak` | src/prism/resolution.py:141-178 | the tie-break of two levels in closed form: n epsilons, and sixteen times as many for every multiple of their distance that the larger magnitude is |
| `Resolution.Separated` | src/prism/resolution.py:130-138 | true exactly when the ratio exceeds the null by more than the tie-break |
| `Resolution.SignalEnd` | src/prism/resolution.py:181-213 | the cut when the series separates, and otherwise the whole length |
| `Resolution.ProgressionKept` | src/prism/resolution.py:116-138 | no arithmetic progression separates, at any offset and step: all of it is signal |
| `Resolution.PairKept` | src/prism/resolution.py:130-138 | no pair of readings is ever separated |
| `Resolution.ScoreOrderIrrelevant` | src/prism/resolution.py:77-79 | when the scores are sorted first, the order they come in does not matter |
| `Resolution.ShuffledProgressionKept` | src/prism/resolution.py:77-79 | so a progression handed over in any order is kept whole |
| `Resolution.CleanSplit` | src/prism/resolution.py:110-113 | between-class variance is all of the variance exactly when both groups are constant |
| `Resolution.StepIsCut` | src/prism/resolution.py:100-113 | a series of two levels is cut exactly at the step, with ratio 1 |
| `Resolution.StepSeparates` | src/prism/resolution.py:130-138 | and is cut by `signal_end` exactly when the tie-break does not cover the gap to the null |
| `Resolution.StepIsSignalIff` | src/prism/resolution.py:116-213 | so `signal_end` cuts two levels at the step exactly when that closed form is below 1/4 for odd lengths and 1 - 3n^2/(4(n^2 - 1)) for even ones, and otherwise keeps all |
| `Resolution.SortedDescends` | src/prism/resolution.py:77-79 | unsorted scores are put in descending order, all kept |
| `Resolution.ScaleKeepsSignal` | src/prism/resolution.py:166-169 | rescaling a series keeps the same leading readings as signal |
| `Schema.AppliedAreReachable` | src/prism/schema.py:191-203 | the walk ends, cycles included, having applied exactly the types the asked one reaches, each once |
| `Schema.EffectiveFieldsAre` | src/prism/schema.py:170-203 | the keys are exactly the fields that reachable types declare, and the asked type's own fields win |
| `Schema.EarlierParentFirst` | src/prism/schema.py:199-200 | parents are walked as listed: what a parent reaches, other than through the asked type, is applied before what neither it nor an earlier parent reaches |
| `Schema.LaterParentWins` | src/prism/schema.py:199-201 | so of two parents the later wins: a field does not come from what a parent reaches when a type that only later parents reach declares it |
| `Schema.ParentsFirstIffUntangled` | src/prism/schema.py:181-187 | every type is applied after all its other parents exactly when the asked type reaches no two types that inherit each other |
| `Schema.ParentsFirstIffAcyclic` | src/prism/schema.py:181-187 | every type is applied after all its parents exactly when the asked type reaches no cycle |
| `Schema.SubtypeWins` | src/prism/schema.py:181 | where no two types reached inherit each other, no field comes from a type when another reachable type that inherits it, directly or not, also declares it |
| `Schema.SubtypesWinIff` | src/prism/schema.py:181 | whatever fields the types declare, the subtype wins every one, exactly when the asked type reaches no two types that inherit each other |
| `Schema.CycleBeatsSubtype` | src/prism/schema.py:184-186 | around a cycle that fails: an explicit registry of two types |
| `Schema.Resolver.WalkType` | src/prism/schema.py:191-201 | the recursive walk over two shared collections applies the specified types in the specified order |
| `Schema.EffectiveFields` | src/prism/schema.py:170-203 | the result is the fold of `dict.update` over that order |
| `Demurrage.SurviveInUnit` | src/prism/law.py:45-63 | the surviving fraction is in [0, 1], whole for no or backward travel and less than whole otherwise |
| `Demurrage.SurviveTwice` | src/prism/law.py:45-63 | two stretches survived in turn are one stretch survived |
| `Demurrage.SegmentBalances` | src/prism/law.py:89-100 | the area under a segment and tau times what survives it add up to tau times the stock |
| `Demurrage.CoolNonNegative` | src/prism/demurrage.py:130-142 | cooling never raises heat and never makes it negative, whatever the clock does |
| `Demurrage.AccrueGrows` | src/prism/demurrage.py:156-170 | an accrual never lowers what is booked |
| `Demurrage.EarnedForward` | src/prism/demurrage.py:273-295 | a later reading shows no less earned |
| `Demurrage.EarnedStays` | src/prism/demurrage.py:246-295 | what is earned stays earned: no later reading undercuts it, through any run whose first event does not come before it |
| `Demurrage.Witness` | src/prism/demurrage.py:246-271 | settles on the old heat, then deposits |
| `Demurrage.WitnessAdds` | src/prism/demurrage.py:173-196 | a witness adds to the energy shown at its frame the rest mass times the work, each counted from zero and the work up to one |
| `Demurrage.ReadingsAre` | src/prism/demurrage.py:130-170 | dt frames on, the energy is heat * exp(-dt/tau), and earned is what was booked plus heat * tau * (1 - exp(-dt/tau)); a past frame shows the meter as it is |
| `Demurrage.ExplicitClockWins` | src/prism/demurrage.py:116-127 | an explicit clock is never replaced by the measured one, and neither counts unless it is positive |
| `Demurrage.WitnessBalances` | src/prism/demurrage.py:262-263 | each event adds exactly tau times its deposit to earned + tau * heat, under any clock |
| `Demurrage.ReadingBalances` | src/prism/demurrage.py:230-295 | a reading only moves value from the stock to what is realised |
| `Demurrage.Conservation` | src/prism/demurrage.py:145-153 | over any run under any clock earned + tau * heat grows by exactly tau times the deposits |
| `Demurrage.LifetimePayout` | src/prism/demurrage.py:145-153 | from an untouched artifact, at any reading frame: earned + tau * energy = tau * deposits, so the payout never exceeds tau times the deposits |
| `Demurrage.ZeroWorkInvisible` | src/prism/demurrage.py:173-196 | on a meter with heat and frame, one witness of no work between the frame and a reading before the next event changes neither energy nor earned |
| `Demurrage.IdleEventsInvisible` | src/prism/demurrage.py:284-288 | under a forward clock the events of any run that deposit nothing can be left out: no reading after it tells the difference |
| `Demurrage.IdleEventsInvisibleFromFresh` | src/prism/demurrage.py:284-288 | from an untouched artifact too |
| `Demurrage.IdleEventsInvisibleIff` | src/prism/demurrage.py:220-295 | and that holds of a stored meter exactly when it has both heat and frame, or has no heat and owes nothing |
| `Demurrage.ZeroWorkInvisibleIff` | src/prism/demurrage.py:130-142 | for a standing stock the later energy is unchanged exactly when the witness falls between the last frame and the reading |
| `Demurrage.UnmeasuredCarries` | src/prism/demurrage.py:58-61 | with no measured rate a run only adds its deposits and realises nothing |
| `Demurrage.HeatBounded` | src/prism/demurrage.py:173-196 | heat never exceeds what was deposited |

## Left out

- Real cryptography and hashing: AES-GCM, HKDF, Fernet, SHA-256, blake2b and key rings are symbolic.
- HTTP and MCP hosts, the CLI, configuration, the filesystem and S3 carriers, `runner.py`: plumbing.
- The live fabric (`deliver_live`) and `serve`: the model is the store-and-forward floor.
- `Provider._route_next`, `instrument.py`, `frames.py`: the next hop is an arbitrary choice of the handler's reply; `signal_end` is modelled without a frame.
- Threads, locks and the background runner of `pump.py`: a tick is one atomic pass and handlers do not raise.
- Reach.Safety: in the state machine a provider discharges onto the carrier it polls; a separate `out` is modelled by `ReachActors.Provider.Pump` alone.
- ReachForgery.ForgeryContained: the forger holds no key and makes no sealed body of its own.
- ReachActors.Requester.OnLeaf: the HLC-sorted `bands`, `first` and `provenance` readings are not modelled.
- ReachActors.PumpLoop.Resolve: says whether and when evidence returned, not which band sorts first.
- Planes.Plane.Reconcile: the carriers of a plane are distinct in-memory carriers, and the union theorems assume equal leaves for equal ids, as content addressing gives.
- StoreCarriers.StoreCarrier.Poll: labels are text that UTF-8 can encode, and nobody rewrites a row or stores a leaf under another id; over a store that stamps nothing only termination, soundness and growth are stated.
- Structural.RoundTrip: a non-integral float always takes eight bytes, so deterministic encoding in the sense of section 4.2.1 of RFC 8949 is claimed for heads only.
- JsonNumber.NumberTextValue: equality with ECMAScript's text of large integral floats is not claimed, because exact integer digits are printed; conversion of huge integers to floats, which raises, is outside the model.
- Canonical.CanonicalParses: a dictionary key is taken as its `str`, and an object of any other type says its `str`.
- `canonical_payload`, `structural_sha`: a case split and a hash over what is modelled.
- MinHash.GroupSignatures: recall is not claimed, since a bucket compares only with its first member; shingling and signature computation are left out.
- Resolution.SignalEnd: exact arithmetic, so that the tie-break bounds the rounding of doubles is not shown; `epsilon` is 2^-52.
- Demurrage.LifetimePayout: the six-place rounding and non-finite stored numbers are not modelled; `warmth` and `temperature` are readings derived from the energy and are left out.
- Shamir.Tables.Combine: shares whose coordinates are not integers are not represented; the coordinates are integers of any value.
- `screened_accumulate` (one double sum over a caller's distances), `conforms`, `bind`, `schema_id`, `estimator_limit`, `horizon` and the modules for mass, attestation, settlement, minting, scopes and access tokens: separate components that nothing modelled here reads.
