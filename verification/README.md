# BARQ-CRS: a verified model

BARQ-CRS is a Python toolkit for authorized security research. This project models its
deterministic engines in Dafny and proves what they promise, for all inputs and all runs:

- **Binary Android XML** (`mobile.py`): the chunk reader, the string pool, the typed values and the
  stack machine that builds the element tree, with the encoder its tests use.
  `Bytes`, `AxmlMachine`, `AxmlDecoder`, `AxmlElements` (the tree on the heap), `AxmlEncoder`.
- **JSON text** (RFC 8259): the compact printer, the parser, canonical (sorted-key) text and the
  script-safe variant of `dashboard.py`. `Json`, `JsonParser`, `JsonCanonical`, `JsonStability`, `SafeJson`.
- **The evidence ledger** (`ledger.py`): redaction and the hash chain over a file's lines.
  `Redaction`, `TextLines`, `Ledger`, `LedgerChain`, `LedgerAppend`.
- **OpenAPI dependency graph** (`api_graph.py`): reference chasing (JSON Pointer, section 4 of RFC 6901),
  field collection, edges and bounded path search. `ApiSchema`, `ApiSequences`, `ApiPaths`.
- **Contract drift** (`drift.py`): security requirements as credentials that satisfy them
  (section 4.8.30 of the OpenAPI Specification 3.1.0). `Drift`, `DriftFindings`.
- **Authorization differential** (`authz.py`): which cross-principal findings come out.
  `AuthzBodies`, `Authz`, `AuthzVerified`.
- **The lead board** (`bounty.py`, `smart_verify.py`): dedupe, rank, cut and merge, and the leads that
  verification adds. `Board`, `BoardMerge`, `BoardRuns`.
- **The verifier and its collector** (`verifier.py`, `collector.py`): ownership, the identity matrix and
  the rate limiter. `Verifier`, `Collector`, `RateWindow`, `Matrix`.
- **The request budget** (`smart_verify.py`): the planner's estimate against what the verifier runs.
  `Budget`, `Execution`.

`Common`, `Ordering` and `Numerals` are shared. Code that works step by step is a method with its loop,
proved equal to a specification function or relation; the lemmas are about that specification. The hash is
an arbitrary function, assumed free of collisions where a lemma says so. `dafny verify dfyconfig.toml`
checks everything.

Four promises turned out not to hold as one might state them. Each has a concrete counterexample and the
condition under which it does hold:

- Appending to a verified ledger need not leave a verified ledger: if the last line lacks its newline, the new
  object joins it. `LedgerAppend.AppendVerifiesExactly`, `LedgerAppend.UnterminatedLineBreaks`.
- A "weaker alternative" finding need not widen the operation, which may already accept as much by another
  alternative. `DriftFindings.FindingWidensExactly`, `DriftFindings.FindingThatWidensNothing`.
- The planner's estimate need not bound the verifier's matrix: an empty-string `resource_kind` counts as no
  request in one and as one request in the other. `Execution.WithinEstimateExactly`, `Execution.EmptyKindBreaks`.
- Cutting the board before the second merge changes it exactly when the cut reverses a tie against a lead of the
  board. `BoardMerge.TwoStagesExactly`, `BoardMerge.RaisedTieBreaks`. The failing leads are inputs of the two
  functions: they need one candidate id with two verdicts. Where the id fixes the verdict, as it does for
  cross-principal candidates, a run's board never fails. `BoardRuns.RunBoardsAgree`, `BoardRuns.CrossPrincipalVerdicts`.

## Model

| member | source | states |
|---|---|---|
| AxmlMachine.BuildExactly | src/barq_crs/mobile.py:160-215 | The stack machine accepts a chunk sequence as tree `t` exactly when the sequence is the pre/post-order traversal of `t`. |
| AxmlMachine.RunConsumes | src/barq_crs/mobile.py:201-211 | At every step the open stack is the rightmost spine of the tree under the root: reading it back gives exactly the events consumed so far. |
| AxmlMachine.AcceptsExactlyBalanced | src/barq_crs/mobile.py:201-215 | A tree comes out if and only if the start and end chunks form one balanced word around a single top-level element, judged by depth alone. |
| AxmlDecoder.WalkIsLexThenRun | src/barq_crs/mobile.py:163-215 | Decoding chunk by chunk succeeds, and with the same state, exactly when reading all chunks first and then running the machine on their events does. |
| AxmlDecoder.DecodeExactly | src/barq_crs/mobile.py:155-215 | For every byte string: decoding succeeds with `t` if and only if its chunks read cleanly and their events are the traversal of `t`; every other byte string is an error, and every read stays inside the buffer. |
| AxmlDecoder.DecodesExactlyWhenBalanced | src/barq_crs/mobile.py:155-215 | Decoding succeeds if and only if the chunks can all be read and their word is balanced with one top-level element. |
| AxmlElements.OpenElement | src/barq_crs/mobile.py:201-207 | On the heap: attaching and pushing an element keeps the stack the spine of the mirrored tree, or fails exactly on a second root. |
| AxmlElements.CloseElement | src/barq_crs/mobile.py:208-211 | Popping moves the finished element into its parent's children in the mirrored tree, or fails exactly on an empty stack. |
| AxmlElements.StringPool | src/barq_crs/mobile.py:102-128 | The loop over the offset table returns exactly the strings, or exactly the error, of the specification. |
| AxmlElements.SetAttributes | src/barq_crs/mobile.py:184-200 | The attribute loop sets on the element exactly the map the specification reads, a later name replacing an earlier one. |
| AxmlElements.DecodeBinaryManifest | src/barq_crs/mobile.py:155-215 | The whole loop: it ends on every input, and returns the root of a fresh tree of objects that mirrors the decoded tree, each object a child in one place only, or exactly its error. |
| AxmlElements.DifferentPathsDiffer | src/barq_crs/mobile.py:201-207 | In such a tree, different paths of child positions from the root reach different objects. |
| AxmlEncoder.ReadLength8 | src/barq_crs/mobile.py:79-87 | One- and two-unit UTF-8 length prefixes are read back as the length written. |
| AxmlEncoder.ReadLength16 | src/barq_crs/mobile.py:90-99 | One- and two-unit UTF-16 length prefixes are read back as the length written. |
| AxmlEncoder.ReadEncodedPool | src/barq_crs/mobile.py:102-128 | An encoded pool, narrow or wide, reads back as its strings. |
| AxmlEncoder.ReadEncodedAttributes | src/barq_crs/mobile.py:184-200 | An encoded attribute table reads back as the attributes' map. |
| AxmlEncoder.PiecesEvents | tests/test_mobile.py:72-84 | The chunk list of a tree has the events of that tree. |
| AxmlEncoder.RoundTrip | tests/test_mobile.py:15-84 | Encoding any encodable tree over any pool that holds its strings and decoding it gives the tree back with qualified names. |
| AxmlEncoder.EveryTreeRoundTrips | tests/test_mobile.py:15-84 | Every well-named tree that fits 32 bits round-trips with the pool of its own strings. |
| AxmlEncoder.QNameInjective | src/barq_crs/mobile.py:182 | For names that do not begin with an opening brace, and namespaces that are not empty and hold no closing brace, the qualified name determines namespace and name. |
| AxmlEncoder.DistinctAttributesKept | src/barq_crs/mobile.py:199-200 | Attributes with distinct qualified names all survive, each with its own value. |
| AxmlEncoder.QualifyInjective | src/barq_crs/mobile.py:182-200 | Trees of such names, no attribute named twice in one element, come back equal if and only if they agree in shape, names, namespaces and attributes up to their order. |
| AxmlEncoder.EncodingsTellApart | tests/test_mobile.py:15-84 | So the encodings of two such trees, over any pools and in any styles, decode alike if and only if the trees agree in that way. |
| AxmlEncoder.AsciiInverts | src/barq_crs/mobile.py:121-127 | On ASCII strings the identity codecs decode what they encode, in both widths. |
| JsonParser.PrintParses | src/barq_crs/ledger.py:38-39 | Parsing the printed text of any well-formed value, safe or not, gives the value back. |
| JsonCanonical.CanonicalParses | src/barq_crs/ledger.py:38-39 | Canonical text parses to the value with its keys sorted, which is the same value up to key order. |
| JsonCanonical.CanonicalExactlySame | src/barq_crs/ledger.py:38-39 | Two values print to one canonical text if and only if they are equal up to key order. |
| JsonCanonical.PrintPrintable | src/barq_crs/ledger.py:86-87 | Printed text holds no control character, so it is one line. |
| JsonStability.ExtraData | src/barq_crs/ledger.py:68 | Text that parses, followed by text whose first character is neither JSON space nor able to carry on a number (a digit, a dot, `e`, `E`, `+` or `-`), does not parse. |
| JsonStability.LoadsWellFormed | src/barq_crs/ledger.py:68 | Whatever is parsed is well formed: distinct keys, number lexemes. |
| SafeJson.SafeJsonSound | src/barq_crs/dashboard.py:34-35 | The escaped text holds no `</` and still parses to the very same value. |
| SafeJson.ReplacePrinted | src/barq_crs/dashboard.py:35 | Replacing in the printed text is the same as escaping inside literals only. |
| Redaction.RedactCleans | src/barq_crs/ledger.py:25-35 | After redaction no secret key, at any depth, holds anything but the marker. |
| Redaction.FixpointExactlyClean | src/barq_crs/ledger.py:25-35 | A value is unchanged by redaction if and only if it is clean; so redacting twice is redacting once. |
| Redaction.SortKeysClean | src/barq_crs/ledger.py:25-39 | Sorting the keys, as storing does, keeps a value clean. |
| Ledger.EvidenceLedger.ReadEntries | src/barq_crs/ledger.py:61-69 | The line loop returns exactly the entries of the non-blank lines, in order, or fails on the first that is not an entry. |
| Ledger.EvidenceLedger.Append | src/barq_crs/ledger.py:71-88 | The file becomes its old text followed by one canonical line for the redacted, chained entry; unreadable ledgers are left alone. |
| Ledger.EvidenceLedger.VerifyChain | src/barq_crs/ledger.py:90-112 | The loop over expected sequence and previous hash gives exactly the verdict of the specification, and changes nothing. |
| LedgerChain.VerifiedExactlyChained | src/barq_crs/ledger.py:90-112 | `verify` reports `n` entries if and only if the file reads as `n` entries, each numbered, linked and sealed. |
| LedgerChain.HeadDeterminesLedger | src/barq_crs/ledger.py:90-112 | With a collision-free hash, two verified non-empty ledgers with one head hash hold the same entries, one by one. |
| LedgerChain.PrefixVerifies | src/barq_crs/ledger.py:90-112 | The first `k` entries of a verified ledger, checked as a ledger of their own, verify with `k`. |
| LedgerAppend.ReadWritten | src/barq_crs/ledger.py:66-68 | After writing an entry, the ledger reads as its old entries and that one exactly when the unterminated tail was JSON space; otherwise it does not read. |
| LedgerAppend.CutVerifies | src/barq_crs/ledger.py:61-112 | Cutting the file of a verified ledger after any ended line leaves a file that reads as its entries so far and verifies with their number. |
| LedgerAppend.AppendVerifiesExactly | src/barq_crs/ledger.py:71-112 | After appending to a verified ledger it verifies with one more entry if and only if its unterminated last line was empty but for JSON space; else it is invalid. |
| LedgerAppend.RunsStayVerified | src/barq_crs/ledger.py:71-112 | Any run of appends from such a ledger keeps it verified, keeps its entries, and adds one clean entry per call, in order. |
| LedgerAppend.RunsFromEmpty | src/barq_crs/ledger.py:61-112 | The same for any run from a new ledger. |
| LedgerAppend.UnterminatedLineBreaks | src/barq_crs/ledger.py:86-87 | A one-entry ledger without its final newline verifies, and no longer does after the next append. |
| ApiSchema.ResolveLoop | src/barq_crs/api_graph.py:17-31 | The loop ends on every document, cyclic ones too, and returns the specification's value. |
| ApiSchema.ResolveExactly | src/barq_crs/api_graph.py:17-31 | The result is reached by following references; it has none left to follow or lies on a cycle; if the chain has an end, it is that end. |
| ApiSchema.SchemaFields | src/barq_crs/api_graph.py:34-53 | The set-growing recursion returns exactly the specified fields. |
| ApiSchema.FieldsExactly | src/barq_crs/api_graph.py:34-53 | A name is collected if and only if some way down through properties, items, allOf, oneOf and anyOf, within the depth cap, ends at a schema that declares it. |
| ApiSequences.Edges | src/barq_crs/api_graph.py:163-179 | The double loop returns the sorted list of all producer/consumer edges. |
| ApiSequences.EdgesExactly | src/barq_crs/api_graph.py:163-179 | For any list of operations: the edges are exactly those between operations of different ids that share a field, a name being in the edge exactly when the one produces and the other consumes it, in order and once; the edges are sorted, and with distinct ids no edge is repeated. |
| ApiSequences.CommonFieldsExactly | src/barq_crs/api_graph.py:170-176 | A list is the one built for an edge if and only if it is sorted, without repeats, and holds exactly the names that the producer produces and the consumer consumes. |
| ApiSequences.Explorer.Visit | src/barq_crs/api_graph.py:196-204 | The recursive search appends to the shared result exactly the specified walk from this node. |
| ApiSequences.FindSequences | src/barq_crs/api_graph.py:181-208 | The adjacency table, the search from every operation and the sort give the specified list, or the depth error. |
| ApiPaths.SequencesExactly | src/barq_crs/api_graph.py:181-208 | With distinct operation ids, every simple path of 2 to `max_depth` operations is listed exactly once, and nothing else is; a name is in binding `i` exactly when operation `i` produces it and the next consumes it. |
| ApiPaths.NodesFixPath | src/barq_crs/api_graph.py:196-208 | A sequence of operations is listed with one set of bindings only. |
| Drift.NormalizeRequirement | src/barq_crs/drift.py:53-65 | The loop returns the requirement with its scopes and schemes in normal order. |
| Drift.NormalRequirementIsNormal | src/barq_crs/drift.py:53-65 | The result is sorted, names each scheme once, and lists each scope once in order. |
| Drift.NormalSecurityMeans | src/barq_crs/drift.py:53-78 | Normalisation accepts exactly the credentials that the declaration accepts. |
| Drift.SecuredExactly | src/barq_crs/drift.py:81-83 | An operation is secured if and only if it has alternatives and the empty credential set meets none. |
| Drift.WeakerExactly | src/barq_crs/drift.py:90-97 | The syntactic test holds if and only if every credential set that satisfies the baseline satisfies the candidate. |
| Drift.WeakerPartialOrder | src/barq_crs/drift.py:90-101 | On normal requirements the test is a partial order. |
| DriftFindings.Judge | src/barq_crs/drift.py:281-338 | One turn of the generator, for an alternative that was added: one finding if some old alternative is strictly stronger, against the least such one and with the kind that happened; otherwise none. |
| DriftFindings.JudgedExactly | src/barq_crs/drift.py:281-338 | That description fixes what the turn yields. |
| DriftFindings.WeakenedRequirements | src/barq_crs/drift.py:270-338 | The generator yields exactly the specified findings, in order. |
| DriftFindings.WeakenedExactly | src/barq_crs/drift.py:270-338 | There is exactly one finding per added alternative strictly weaker than some old one and none for any other; each is against the least such baseline and has the right kind. |
| DriftFindings.NeverFallsThrough | src/barq_crs/drift.py:300-338 | One of the three kinds always applies to a strictly weaker alternative. |
| DriftFindings.FindingIsReal | src/barq_crs/drift.py:281-298 | The new alternative's own credentials satisfy it and not the reported baseline. |
| DriftFindings.FindingWidensExactly | src/barq_crs/drift.py:281-298 | The operation accepts credentials it did not accept if and only if no old alternative is as weak as the new one. |
| DriftFindings.FindingThatWidensNothing | src/barq_crs/drift.py:281-298 | Two declarations of one operation for which a removed scheme is reported, while the operation accepts exactly the credentials it accepted before. |
| DriftFindings.AuthenticationRemovedExactly | src/barq_crs/drift.py:178-198 | The finding comes out if and only if anonymous callers were refused before and are accepted now. |
| AuthzBodies.CanonicalIsFaithful | src/barq_crs/authz.py:85-98 | The canonical printer is a text that determines a value up to key order. |
| AuthzBodies.FingerprintExactly | src/barq_crs/authz.py:68-93 | Two bodies have one fingerprint if and only if their canonical forms are the same. |
| AuthzBodies.SensitiveValueHashes | src/barq_crs/authz.py:162-169 | The loop fills the map with the hash of the last sensitive value at each path. |
| AuthzBodies.HashesMatchExactly | src/barq_crs/authz.py:162-169 | Two bodies have one hash at a path if and only if their last sensitive values there are equal. |
| Authz.ComparePair | src/barq_crs/authz.py:244-274 | The comparison reports exactly the paths at which both bodies show one sensitive value, and for a non-empty baseline is verified if and only if the canonical bodies are equal or such a path exists. |
| Authz.AccessOf | src/barq_crs/authz.py:325-366 | The inner loop yields one candidate per viewer whose comparison is sufficient, in order. |
| Authz.ObjectAccess | src/barq_crs/authz.py:320-367 | The double loop over usable owners and usable non-owners yields exactly their candidates. |
| Authz.GroupByKey | src/barq_crs/authz.py:227-229 | The dictionary holds, per method, route and resource, exactly its observations in order, the keys in order of first appearance. |
| Authz.Analyze | src/barq_crs/authz.py:226-239 | The loop over groups, the dictionary by id and the sort give exactly the specified result. |
| Authz.MatchingExactly | src/barq_crs/authz.py:247-253 | The matching paths are exactly those at which both bodies show one sensitive value. |
| Authz.VerifiedComparison | src/barq_crs/authz.py:258-263 | A comparison with a non-empty baseline is verified if and only if the canonical bodies are equal or some sensitive value is shared. |
| AuthzVerified.SameFingerprintSameVerdict | src/barq_crs/authz.py:264-273 | Comparisons with one evidence fingerprint are both verified or both not. |
| AuthzVerified.FindingsArise | src/barq_crs/authz.py:232-237 | Before dropping ids, the cross-principal findings are exactly the sufficient comparisons of usable owners and non-owners of one group. |
| AuthzVerified.VerifiedExactly | src/barq_crs/authz.py:226-239 | A verified cross-principal candidate for a target is in the result if and only if some usable owner and usable non-owner of a group with that target share a body or a sensitive value; dropping equal ids never loses it. |
| Board.DedupeLeads | src/barq_crs/bounty.py:553-559 | The dictionary loop and the sort return the ranked list. |
| Board.BestHolds | src/barq_crs/bounty.py:553-558 | The dictionary holds exactly, for each id, the first among its highest-scored leads, in order of first appearance. |
| Board.RankedExactly | src/barq_crs/bounty.py:553-559 | The list holds exactly the winners and is strictly ordered by score, kind, route and first appearance. |
| BoardMerge.InOrderUnique | src/barq_crs/bounty.py:559 | That order and those contents determine the list. |
| BoardMerge.TwoStagesExactly | src/barq_crs/smart_verify.py:379-382 | When ids fix kind and route, cutting the first board before merging gives the board of merging everything and cutting once if and only if the cut reverses no tie against a lead of that board. |
| BoardMerge.TwoStagesAreOne | src/barq_crs/smart_verify.py:379-382 | In particular when no lead that the merge raises ties with another. |
| BoardMerge.RaisedTieBreaks | src/barq_crs/smart_verify.py:379-382 | Two tied verification leads, one of them raised from likely to verified, for which the two boards differ. |
| BoardRuns.RunBoardsAgree | src/barq_crs/bounty.py:524-549 | If a candidate's id fixes its verdict, the two boards agree for verification leads over any first board, at any cut. |
| BoardRuns.CrossPrincipalVerdicts | src/barq_crs/authz.py:258-273 | The cross-principal candidates of any two analyses meet that condition. |
| Verifier.ValidateInputs | src/barq_crs/verifier.py:344-376 | The checks, in order, give exactly the first error. |
| Verifier.HasRepeats | src/barq_crs/verifier.py:354-363 | Comparing the length with the size of the set finds repeats exactly. |
| Verifier.ValidatedExactly | src/barq_crs/verifier.py:344-376 | There is no error if and only if principals, keys and values per kind are unique and every resource and template fits. |
| Verifier.OwnedProfiles | src/barq_crs/verifier.py:378-388 | Each profile gets exactly the keys of the resources it owns. |
| Verifier.BuildRequests | src/barq_crs/verifier.py:390-403 | The loops expand the templates over the resources of their kind, in order. |
| Verifier.Dedupe | src/barq_crs/verifier.py:260-269 | The loop over seen keys returns the specified templates. |
| Execution.DedupedExactly | src/barq_crs/verifier.py:260-269 | Exactly one template of every key that occurs is kept, and only given ones. |
| Collector.EvidenceCollector.RateLimit | src/barq_crs/collector.py:224-233 | A rate that is not positive is an error and records nothing; any other call records one send, no earlier than the rate allows after the last of its key. |
| Collector.EvidenceCollector.CollectOne | src/barq_crs/collector.py:165-222 | Only safe methods in scope are sent, each under its rule's limit, and the observation says what was asked, by whom, and the ownership decision. |
| Collector.EvidenceCollector.CollectMatrix | src/barq_crs/collector.py:147-163 | Over budget nothing is sent; otherwise one observation per request and profile, request by request. |
| Collector.MatrixRow | src/barq_crs/collector.py:159-163 | The `i`th group of observations records request `i` as each profile in turn. |
| Collector.AnyRunIsBounded | src/barq_crs/collector.py:224-233 | After any run of calls on one collector the window bound holds of its sends. |
| RateWindow.SpacedStep | src/barq_crs/collector.py:228-233 | A send that waited after the last of its key keeps all sends of each key apart. |
| RateWindow.WindowBound | src/barq_crs/collector.py:224-233 | Any window of length L holds at most floor(L * rate) + 1 sends of a key, however other keys interleave. |
| RateWindow.BoundReached | src/barq_crs/collector.py:224-233 | The bound is reached, so it cannot be lowered. |
| Matrix.OwnedSetsPartition | src/barq_crs/verifier.py:378-388 | For validated inputs the owned sets are disjoint and together are exactly the resource keys. |
| Matrix.RequestsRendered | src/barq_crs/verifier.py:390-403 | The requests are exactly the renderings of templates, with a resource of their kind or plain. |
| Matrix.OneObservationOwns | src/barq_crs/collector.py:204-206 | Each request for a resource has exactly one observation that owns it, made by the resource's owner and never by the added anonymous profile. |
| Matrix.OwnershipExactly | src/barq_crs/collector.py:204-206 | A profile of the run is decided to own a resource if and only if it is its owner. |
| Matrix.CandidateNamesOwner | src/barq_crs/verifier.py:329-332 | Every cross-principal candidate of a run names the true owner of a resource of the run, and somebody else as the viewer. |
| Matrix.Run | src/barq_crs/verifier.py:298-339 | Invalid or over-budget inputs are refused before anything is sent; otherwise the run's requests, profiles, matrix and candidates. |
| Budget.FitBudget | src/barq_crs/smart_verify.py:459-484 | The sums, the error checks and the greedy loop give the specified selection and estimate. |
| Budget.PicksAreGreedy | src/barq_crs/smart_verify.py:475-484 | The loop's selection is the greedy choice and its estimate is exactly what the choice costs. |
| Budget.GreedyFeasible | src/barq_crs/smart_verify.py:475-484 | The greedy choice fits the budget and takes only templates that yield requests. |
| Budget.GreedyIsFirst | src/barq_crs/smart_verify.py:475-484 | Any other feasible choice first differs by skipping a template the greedy one takes: it is lexicographically first. |
| Budget.GreedyIsMaximal | src/barq_crs/smart_verify.py:475-484 | A rejected template with at least one resource does not fit the budget left at the end. |
| Execution.ExpandSize | src/barq_crs/smart_verify.py:452-456 | Planner and verifier agree on a template's requests but for an empty-string kind, which the verifier renders once. |
| Execution.MatrixExactly | src/barq_crs/smart_verify.py:467-484 | The verifier's matrix is the estimate, plus one request per profile for each empty-kind template kept, less the estimate of the repeats dropped. |
| Execution.WithinEstimateExactly | src/barq_crs/smart_verify.py:467-484 | The matrix stays within the estimate if and only if the empty-kind templates kept do not outnumber the units of the repeats dropped. |
| Execution.PlanBoundsMatrix | src/barq_crs/smart_verify.py:467-484 | Without empty kinds the matrix is at most the estimate, which is at most the limit. |
| Execution.EmptyKindBreaks | src/barq_crs/smart_verify.py:453-456 | Two empty-kind templates fit a budget of one request and are run as two. |
| Execution.ProfileCountAgrees | src/barq_crs/smart_verify.py:442-450 | The planner counts as many profiles as the run will have, the added anonymous one included. |
| Execution.PlanPassesRunCheck | src/barq_crs/verifier.py:322-328 | The derived plan passes the run's own budget check. |

## Left out

- Text decoding with replacement: a codec parameter, with the ASCII instance proved to invert.
- Attribute order in an element: attributes are a map, so the order of a Python dictionary is not captured.
- The encoder writes only the pool and start and end chunks; other chunk types are skipped by the decoder as in the source.
- AxmlEncoder.RoundTrip: the tree comes back with its namespaces folded into its names, as the decoder returns it; `AxmlEncoder.QNameInjective` says when they can be told apart.
- JSON floats: a float is kept as its printed lexeme, so other spellings of one number are not identified, and NaN and Infinity are not values.
- Lone surrogates, Python's recursion limit, tuples and non-string dictionary keys: outside the JSON values of the model.
- The ledger's file: its text is a string, a missing file is the empty text, and encodings and I/O errors are not modelled.
- Ledger.EvidenceLedger.VerifyChain: the wording of the messages is not modelled, only which verdict it is and its number.
- `str.lower`, `_snake`, `_normalize_name`, `_denial_like`, URL parsing and quoting: function parameters.
- ApiSchema.FieldsExactly: a `properties` or keyword value of the wrong type counts as absent, where Python may raise.
- Extracting operations from a document (`api_graph.py` 103-161): operations are given by id, consumed and produced fields.
- AuthzVerified.VerifiedExactly: the engine's other checks, which report other kinds, and the final order are parameters; ids are an injective triple, and similarity is an exact fraction where the source rounds to four digits.
- Drift candidates carry no texts, severities or scores; changed scheme definitions and new sensitive operations are not modelled.
- Malformed security declarations, which raise at once, are excluded by types.
- BoardRuns.RunBoardsAgree: that the id fixes the verdict is proved for cross-principal candidates only; the engine's other kinds are parameters. Candidates without an id get one from their target in the source; here every candidate has its id.
- Loading and saving the board between the two stages is the identity.
- Collector.EvidenceCollector.CollectOne: headers, body bytes, truncation, latency, tags and timestamps are not in the observation; what the network answers is arbitrary.
- Scope policy: which rule lets a URL through is a parameter.
- Floating point in the limiter: time and rates are real numbers, so rounding of the interval is not modelled.
- The synthesizer's candidates, their scores and their order are inputs of the budget planner.
- Network, subprocess, HTML, Markdown, SARIF, command line, regular-expression heuristics and the other modules: no model.
