# Noe Gate: verified models

Noe Gate decides whether a proposed action may run. A chain such as `shi @zone_clear khi sek mek @enter_zone_alpha sek`
is evaluated in three-valued logic over a layered context of evidence; the action comes out only if its guards hold, and
hashes commit to the context and to the action. This project models the parts that decision rests on and proves what they
promise, for every input or every run.

| modules | what they model |
|---|---|
| `CanonicalJson`, `CanonicalWriter`, `JsonDecoder`, `CanonicalRoundTrip`, `CanonicalOrder`, `CanonicalForm`, `CompositeHash` | the canonical JSON printer and the context hash of the Rust core, against an independent decoder for RFC 8259, and its form character by character |
| `CycleCheck`, `ActionHash`, `ActionObjects`, `ProposalDag`, `Commitments` | the hash of an action, the graph of proposals and its cycle check, and what the hashes commit to field by field |
| `Evaluator`, `Chains`, `Meanings`, `Guards`, `Grounding` | the eager Python evaluator: what each construct means over the maps of the context, which actions get out, and what more context can change |
| `RustEval`, `Agreement` | the short-circuiting Rust evaluator, and where the two agree |
| `Projection`, `SafeContext`, `SafeBuild`, `SafeMeanings` | from annotated evidence to the safe context, and what gets into it by limits and names |
| `DeepMerge`, `ContextManager` | layered merge and the manager of the three layers |
| `Hysteresis`, `DeltaMeanings`, `HysteresisRuns` | the adapter that latches noisy confidences, each delta, and the stream of them |
| `AstCache`, `CacheMeanings` | the cache of parse trees under interleaving threads |
| `GateNode` | the ROS 2 lifecycle node |
| `Json`, `Strings`, `Options` | JSON values, code-point order, optional values |

Code that updates something in place is a method here too, proved against a function; the laws are lemmas about the functions.
Lemmas named for what something means state it without the model's own definitions: by the names of fields, by the numbers of
the limits, or by the entries of the maps.

## What is assumed

- A digest is a function parameter. Where a theorem needs it, the digest of an action is injective (`ActionHash.Injective`);
  the context hashes need only 32-byte digests without collision among the messages at hand. The canonical serializer of the
  context manager is a parameter that is injective on the layers compared.
- Time, confidences and thresholds are integers; what Python's `int()` of a string and `float()` make of an evidence entry is a parameter.
- The parser is a function from a chain to a tree or a failure, and code that holds a lock runs alone.

## Where the code does less than one might read into it

Each is a lemma below, with the exact condition.

- `kra` guards one item. Juxtaposed actions on its right are flattened into the operand list before the fold, so the further
  ones get past a `kra` that does not hold.
- More context can change what was decided, through the second spelling of a key: a literal stored bare beside its @ key, bare
  knowledge added beside the @ key of a grounded literal, or a literal grounded while the knowledge holds both spellings.
  `Grounding.MonotoneExactly` has the condition; an answer that is a list, but not of one, breaks it too.
- `shi` on an ungrounded literal asks for the key with one @ more in Python than in Rust (`Agreement.SpellingsDivide`).
- In strict mode the two evaluators part over an error behind `false an` or `true ur`, under operators over parentheses, and at a
  `khi` over a truth value that holds or whose condition is an error; each has its if and only if.
- Rust makes an action of any literal's name; Python of a grounded literal only, and in strict mode of a context with a spatial
  part (for men also an audit part). Behind `kra` Rust never acts, and says nothing where Python gives the right side.
- A stored number is true in Python unless it is 0 and in Rust only above 0, and strict mode takes it for a guard in Rust only
  (`Meanings.FactsDivide`).
- The key `_include_outcome_in_hash` starts with an underscore and still changes the hash when there is an outcome to include.
- Merging is not associative, so `update_local` does not always patch the merged view.
- The manager's constructor does not size the local layer, so a snapshot can fail until the first accepted local call.
- A structured consensus value is kept among the literals once, but not when the safe context is cleaned again.

Where the code and its own words differ, the model follows the code: `build_safe_context` reports ERR_STALE_CONTEXT for
conflicting or doubtful evidence too, and starts from an empty allow-list rather than from the merged context;
`pi_safe` ignores unusable values of the leading edge instead of counting them as disagreement; the adapter writes an
explicit null for an undefined key instead of removing it; a sensor reading at time 0 counts as never received.

## Model

| member | source | states |
|---|---|---|
| CanonicalWriter.WriteString | rust/noe_core/src/hash.rs:274-306 | appends exactly the quoted string: named escapes, `\u` escapes for other control characters and for everything above 127, surrogate pairs above the BMP |
| CanonicalWriter.WriteNumber | rust/noe_core/src/hash.rs:173-182 | appends the decimal text of any 64-bit integer, signed or unsigned |
| CanonicalWriter.WriteValue | rust/noe_core/src/hash.rs:128-161 | appends the text of the canonical form (members sorted by key, one per key) of any value without floats |
| CanonicalWriter.CheckNoFloats | rust/noe_core/src/hash.rs:309-330 | true exactly when no number at any depth lies outside the signed and unsigned 64-bit ranges or is a float |
| CanonicalWriter.CanonicalBytes | rust/noe_core/src/hash.rs:35-38 | fails exactly on values holding a float; otherwise its text decodes to a value that means the same |
| CanonicalRoundTrip.NumberIsRead | rust/noe_core/src/hash.rs:173-182 | a decoder for section 6 of RFC 8259 reads a printed integer back, whatever follows it |
| CanonicalRoundTrip.SurrogatesAreRead | rust/noe_core/src/hash.rs:293-300 | the surrogate arithmetic loses nothing: a character above 0xFFFF is read back from its two escapes |
| CanonicalRoundTrip.StringIsRead | rust/noe_core/src/hash.rs:274-306 | a decoder for section 7 of RFC 8259 reads a printed string back, whatever follows it |
| CanonicalRoundTrip.ValueIsRead | rust/noe_core/src/hash.rs:128-161 | a decoder for sections 4 to 7 of RFC 8259 reads a printed document of any depth back |
| CanonicalOrder.SortKeepsLookup | rust/noe_core/src/hash.rs:144-148 | sorting the members gives strictly increasing keys and the same map from keys to values, the last of repeated keys winning |
| CanonicalOrder.MeaningFixesCanon | rust/noe_core/src/hash.rs:144-157 | values that mean the same have one canonical form: insertion order and overwritten duplicates leave no trace |
| CanonicalWriter.CanonicalTextDecodes | rust/noe_core/src/hash.rs:26-30 | decoding the canonical text gives the canonical document, which means the same as the value printed |
| CanonicalWriter.CanonicalTextIsInjective | rust/noe_core/src/hash.rs:26-38 | two values have one canonical text if and only if they mean the same |
| CanonicalWriter.TextIsAscii | rust/noe_core/src/hash.rs:274-306 | the whole text is ASCII |
| CanonicalForm.EscapesMean | rust/noe_core/src/hash.rs:274-306 | character by character: which ones have short escapes, that the rest of ASCII up to DEL stands for itself, and that all others are escaped by lower-case code units or surrogates |
| CanonicalForm.DecimalMeans | rust/noe_core/src/hash.rs:173-182 | a sign exactly for negative integers, no leading zero, digits only |
| CanonicalForm.ArrayTextMeans | rust/noe_core/src/hash.rs:128-142 | brackets around the texts of the items, one comma between each two, no blanks |
| CanonicalForm.ObjectTextMeans | rust/noe_core/src/hash.rs:144-157 | braces around key, colon and value of each member, one comma between each two, no blanks |
| CanonicalForm.MembersMean | rust/noe_core/src/hash.rs:144-148 | an object means, for each key, the value of the last member with it |
| CanonicalForm.BeforeMeans | rust/noe_core/src/hash.rs:144-148 | keys are ordered by the code point at their first difference, a prefix before what it begins |
| CompositeHash.ShardDigest | rust/noe_core/src/hash.rs:52-58 | the digest of the canonical text |
| CompositeHash.CompositeHash | rust/noe_core/src/hash.rs:64-82 | filling the 96-byte buffer slice by slice and hashing it gives the hash of the three shard digests in order |
| CompositeHash.CompositeBinds | rust/noe_core/src/hash.rs:59-76 | with 32-byte digests and no collision among the messages hashed, the composite hash is equal exactly when all three layers' bytes are |
| CompositeHash.CompositeHashBindsContext | rust/noe_core/src/hash.rs:64-82 | the same for contexts: equal composite hashes if and only if all three layers mean the same |
| CycleCheck.Search.HasCycle | noe/noe_parser.py:343-359 | one recursive call: true only if a cycle is reachable; on false the stack is as before and the node is finished, every finished node having only earlier finished children |
| CycleCheck.HasCycle | noe/noe_parser.py:343-361 | on every finite graph the search terminates and returns true if and only if some cycle is reachable from the node |
| CycleCheck.PathDescends | noe/noe_parser.py:343-359 | a path from a finished node meets only nodes finished earlier |
| CycleCheck.FinishedIsAcyclic | noe/noe_parser.py:349-359 | no cycle is reachable from a finished node |
| ActionHash.NormalizeBinds | noe/provenance.py:77-132 | two values normalize alike if and only if they agree on every field that is kept, at every depth |
| ActionHash.IgnoredFieldIsIrrelevant | noe/provenance.py:97-123 | writing an outcome, metadata or underscore field (the outcome flag aside) never changes the action's identity |
| ActionHash.OutcomeFlagMatters | noe/provenance.py:112-118 | the exception among the underscore keys, exactly: writing the key that asks for outcomes keeps the identity if and only if it means what it meant before or the action has no outcome field |
| ActionHash.ComputeIsIdentity | noe/provenance.py:153-188 | hashing a genuine action yields its identity, a function of its content alone, and leaves it genuine and of the same identity although it writes hashes into it |
| ActionHash.IdentityBindsProposal | noe/provenance.py:77-188 | with an injective digest, genuine actions have one hash if and only if they make the same proposal all the way down the chain of nested actions |
| Commitments.FieldCounts | noe/provenance.py:97-132 | field by field and by name: writing it leaves the hash alone if and only if it is an underscore key, one of the six metadata keys, one of the five outcome fields when outcomes are not asked for, the pointer beside a nested action, or held the same data before |
| Commitments.TargetCounts | noe/provenance.py:106-188 | writing the target leaves the hash alone if and only if it names the same data, or nests an action of the same hash |
| Commitments.HashFixesFields | noe/provenance.py:97-188 | two genuine actions with one computed hash agree on every field that is not an underscore key, one of the eleven names, or a nested target |
| Commitments.InProposalByName | noe/provenance.py:97-132 | the fields that belong to the proposal, by name |
| Commitments.VerbAndTargetAreBound | noe/provenance.py:153-188 | so actions that differ in their verb or in the name of their target have different computed hashes |
| Commitments.FalsyValues | noe/provenance.py:112-118 | the values of the outcome key that do not ask for outcomes |
| Commitments.FloatsAreFound | noe/provenance.py:180-186 | a float is found if and only if one lies at the end of some path of keys and indices |
| Commitments.FloatIsRefused | noe/provenance.py:180-186 | a float anywhere in the data a kept field is hashed as is refused |
| ActionObjects.ActionNode.StripInternal | noe/noe_parser.py:378-381 | deletes exactly the keys that start with an underscore, in place |
| ActionObjects.ActionNode.HashTarget | noe/provenance.py:170-179 | writes the missing hash of the nested action into the nested object and changes nothing else of the parent |
| ActionObjects.ActionNode.ComputeActionHash | noe/provenance.py:153-188 | the in-place computation on linked objects: returns the hash and leaves the object as the specification says, or fails exactly when a float is in the kept data |
| ProposalDag.Evaluator.ComputeEventHash | noe/noe_parser.py:322-335 | hashes proposal and outcome under a flag that is gone afterwards; without outcome fields the event hash is the action hash |
| ProposalDag.Evaluator.Finalize | noe/noe_parser.py:263-383 | registers exactly the action's hash with the edge to its nested action, rejects exactly when the graph then reaches a cycle from it, and otherwise leaves the action with its event hash and its provenance and without internal keys |
| Commitments.EventHashBindsOutcome | noe/noe_parser.py:321-335 | two genuine actions are left with one event hash if and only if they make the same proposal down the whole chain and agree on each of the five outcome fields |
| Commitments.OutcomePartsHashes | noe/noe_parser.py:321-335 | the event hash left in an action is its action hash if and only if it has none of the five outcome fields |
| Commitments.ProvenanceSays | noe/noe_parser.py:369-381 | the provenance names both hashes that the action carries, the context hash and the source, and the time exactly for deliveries and observations with a time other than 0 |
| Commitments.FloatFreeIsEntered | noe/noe_parser.py:301-341 | a proposal without floats is always entered in the graph under its own hash, with the edge to its nested action |
| Commitments.RunEntersExactly | noe/noe_parser.py:263-341 | over any run the nodes of the graph are exactly the hashes of the actions entered |
| ProposalDag.PathFallsInDepth | noe/noe_parser.py:341-347 | along a path of the graph the nesting depth falls by one at each edge |
| ProposalDag.StepKeepsGenuine | noe/noe_parser.py:337-347 | finalizing a genuine action keeps every node explained by some genuine action, with at most the edge that action has |
| ProposalDag.GenuineDagIsAcyclic | noe/noe_parser.py:337-361 | in such a graph each node has at most one child and no cycle is reachable from any node |
| ProposalDag.RunStaysAcyclic | noe/noe_parser.py:263-383 | over any sequence of finalizations of genuine actions in one evaluator: at most one child per node, and no cycle, ever |
| ProposalDag.FinalizedIsGenuine | noe/noe_parser.py:312-383 | what finalizing returns is genuine under the hash it carries, and so is an action built around it, so runs that nest earlier results stay within the theorem |
| Evaluator.VisitConjunction | noe/noe_parser.py:2412-2477 | the loop over the flat operand list computes the left fold, with juxtaposed operands collected into a list |
| Evaluator.VisitDisjunction | noe/noe_parser.py:2479-2518 | the loop over the flat operand list computes the left fold of ur |
| Chains.PlainConj | noe/noe_parser.py:2412-2477 | an operator chain whose operands are single items is the left fold of its operators over the items |
| Chains.PlainDisj | noe/noe_parser.py:2479-2523 | the same for ur |
| Meanings.AnMeans | noe/noe_parser.py:2003-2019 | `a an b` is false if and only if a side is false and true if and only if both are, where true means true, a number other than 0, or such a value in a list of one |
| Meanings.UrMeans | noe/noe_parser.py:2021-2034 | `a ur b`: the same with true and false exchanged |
| Meanings.NaiMeans | noe/noe_parser.py:884-913 | nai exchanges true and false |
| Meanings.KraMeans | noe/noe_parser.py:1997-2001 | `a kra b` is the right side unwrapped if the left side is true, and else undefined |
| Meanings.ErrorsPass | noe/noe_parser.py:1953-1957 | an error on either side of an, kra or ur is the result, the left one first |
| Meanings.NumbersAsTruth | noe/noe_parser.py:884-913 | a number in any parentheses and scopes is true if and only if it is not 0, under an, ur, nai and kra, on either side |
| Meanings.RaisingIsEager | noe/noe_parser.py:1225-2613 | an operand that raises abandons the evaluation wherever it stands: nothing is short-circuited |
| Meanings.JuxtapositionMeans | noe/noe_parser.py:2458-2477 | juxtaposed items make one list of their values in order |
| Meanings.SekMeans | noe/noe_parser.py:1743-1804 | a scope is the list of what is in it, without stray keywords |
| Meanings.NamesAct | noe/noe_parser.py:2447-2457 | an item that is the name of an operator is read as the operator |
| Meanings.TrailingOperator | noe/noe_parser.py:2450-2452 | an operator with nothing behind it makes the chain undefined |
| Meanings.LeadingOperator | noe/noe_parser.py:2432-2477 | an operator with nothing before it is taken for a text, and what follows joins it in a list |
| Meanings.LoneUr | noe/noe_parser.py:2489-2509 | ur between nothing and nothing is taken for a text |
| Meanings.EmptyChainRaises | noe/noe_parser.py:2425-2440 | a chain of nothing but empty lists raises |
| Meanings.PairBeforeUr | noe/noe_parser.py:2489-2499 | a list of two before ur leaves operands and operators out of step: undefined |
| Meanings.TripleBeforeUr | noe/noe_parser.py:2489-2509 | of a list of three before ur the middle item is taken for the operator, with what comes of it |
| Meanings.LiteralMeans | noe/noe_parser.py:965-992 | the value of a literal down to the map of the context: bare key, @ key, or none |
| Meanings.ShiMeans | noe/noe_parser.py:1283-1317 | what shi on a literal finds, down to the maps: which keys are asked for when it is grounded and when it is not, and what is said when none is there |
| Meanings.ShiOfValue | noe/noe_parser.py:1283-1317 | shi on anything else: a literal in parentheses by its key, a text with an @ by itself, all else undefined, an error passed on |
| Meanings.NaiBeforeOperators | noe/noe_parser.py:1225-1266 | operators apply from the innermost out, and an error on the way is the result |
| Meanings.MekMeans | noe/noe_parser.py:1828-1925 | an action on a literal, down to the maps: its target is the key with an @, or the nested action; else the error that strict mode gives, by its code |
| Meanings.ActsOnTargets | noe/noe_parser.py:1828-1925 | an action on any target: when there is one, and else the error or the sentinel |
| Meanings.GuardMeans | noe/noe_parser.py:2561-2613 | a guarded action comes out if and only if its condition is true (in strict mode: the truth value true) and its target can be acted on, and what is said otherwise |
| Meanings.NumbersGuard | noe/noe_parser.py:2561-2613 | a number as the guard lets the action through if and only if it is not 0, and never in strict mode, where it is ERR_GUARD_TYPE |
| Meanings.FactsGuard | noe/noe_parser.py:1283-2613 | `shi @key khi sek mek @target sek`, from the maps of the context to the action: for any stored fact, a number included |
| Guards.ActionsAreGuarded | noe/noe_parser.py:2412-2613 | for every expression: each action in the result is what an action node evaluates to, or held by a literal, or a fact under shi, and the node is open: its khi conditions were true, and in its chain no operator stands after it and the one that took it, if any, is a kra that held |
| Guards.ItemsAreGuarded | noe/noe_parser.py:2412-2613 | the same item by item of a list, so that a kra answers for the item it took and for no other |
| Guards.ChainIsGuarded | noe/noe_parser.py:2432-2477 | the same for a chain from any point on, read off its terms |
| Guards.ChainOpens | noe/noe_parser.py:2432-2477 | term by term: an operator closes all that stands before it and the first item of its operand too, unless it is a kra that holds; further items of the operand and juxtaposed terms add their own nodes |
| Guards.ConjOpens | noe/noe_parser.py:2412-2477 | so the open nodes of a whole chain are those its terms leave open |
| Guards.PlainChainOpens | noe/noe_parser.py:1997-2001 | what gets out of a plain chain comes from its last operand, behind a kra before which the whole chain was true |
| Guards.BinaryActions | noe/noe_parser.py:1940-2034 | the actions that pass a binary operator are those on the right of a kra that holds, and no others |
| Guards.UnaryActions | noe/noe_parser.py:1225-1317 | the actions that pass a unary operator chain are facts its outermost shi looked up |
| Guards.GuardedActions | noe/noe_parser.py:2561-2613 | khi passes actions of its body only when its condition is true |
| Guards.KraClosesOperand | noe/noe_parser.py:2432-2477 | a kra that does not hold closes the first item of its operand, whatever is juxtaposed in the operand or behind it |
| Guards.KraGuardsOneItem | noe/noe_parser.py:2432-2477 | wherever a kra stands in a chain, what the chain goes on with holds exactly the actions of the further items of a juxtaposed right side, and those of the first item if the kra holds |
| Guards.KraLetsSecondActionThrough | noe/noe_parser.py:2432-2477 | the case that fails: a false kra before two juxtaposed actions still yields the second |
| Grounding.GroundingIsMonotone | noe/noe_parser.py:965-2613 | in partial mode, a context that keeps every answered lookup turns undefined results into defined ones and changes nothing else, whatever the expression; answers are scalars or lists of one |
| Grounding.MonotoneExactly | noe/noe_parser.py:965-2613 | and only such a context does: over a context with such answers, every expression keeps what it decided if and only if every answered lookup (of a literal, of shi on a literal, of shi on an answer) is kept and the larger context answers no lookup with a list of none or several items |
| Grounding.CleanExtensionKeeps | noe/noe_parser.py:965-992 | adding literals or knowledge without changing entries keeps every answered lookup when no key is stored under two spellings |
| Grounding.GroundlessIsUndecided | noe/noe_parser.py:965-2613 | an expression without truth constants over a context that grounds none of its keys is never true or false in either mode, and undefined in partial mode |
| Grounding.GroundingSwitchesSpelling | noe/noe_parser.py:1225-1317 | grounding a literal keeps an answer of shi stored under the @ key exactly when the bare key is not stored too with another value |
| Grounding.NewLiteralSpelling | noe/noe_parser.py:982-987 | storing a literal under its bare key beside its @ key keeps its value exactly when the new value is the same, or null |
| Grounding.NewKnowledgeSpelling | noe/noe_parser.py:1303-1309 | adding the bare knowledge key of a grounded literal beside its @ key keeps the answer exactly when the old one is below the new |
| Grounding.ListAnswerUndecides | noe/noe_parser.py:2432-2477 | `false an shi @key`, for a key answered with a list only once more is known: false before, and still false exactly when the list has one item |
| Agreement.EvaluatorsAgree | rust/noe_core/src/eval.rs:423-500 | over boolean knowledge the short-circuiting and the eager evaluator give one truth value, or one error, for every expression of constants, nai, shi on literals, an, kra, ur and khi in which no operator parts its operands' values |
| Agreement.LikeKeysAgree | rust/noe_core/src/eval.rs:423-466 | one truth value for every such expression whose keys come to the same under both spellings and, in strict mode, are known, with no khi that holds; a kra holds over no truth value |
| Agreement.SpellingsDivide | rust/noe_core/src/eval.rs:246-275 | shi on a literal, in either mode: the two agree if and only if the literal is grounded or the two spellings are answered alike, and without knowledge exactly in partial mode |
| Agreement.OperatorDivides | rust/noe_core/src/eval.rs:423-500 | an, kra over operands the evaluators agree on: they go on agreeing if and only if the operator does not part them |
| Agreement.AnDivides | rust/noe_core/src/eval.rs:431-448 | `c an d` over operands they agree on: they go on agreeing if and only if not (c is false and d an error) |
| Agreement.UrDivides | rust/noe_core/src/eval.rs:450-466 | `c ur d`: if and only if not (c is true and d an error) |
| Agreement.KraDivides | rust/noe_core/src/eval.rs:492-500 | `c kra d`, for which Rust has no arm: they go on agreeing if and only if not (c is true and d a truth value) |
| Agreement.ParenthesesDivide | noe/noe_parser.py:1225-1317 | unary operators over parentheses: if and only if what is in the parentheses is not an error |
| Agreement.UnknownBehindAn | rust/noe_core/src/eval.rs:431-448 | an unknown key behind an, in strict mode: they agree if and only if what stands before it is not false |
| Agreement.UnknownBehindUr | rust/noe_core/src/eval.rs:450-466 | an unknown key behind ur: if and only if what stands before it is not true |
| Agreement.VerdictsAgree | rust/noe_core/src/eval.rs:1008-1023 | a guarded action on a literal: Rust acts exactly when the condition is true, Python exactly when also the target is grounded and, in strict mode, the context has the parts asked for; so the verdicts are the same if and only if the condition is not true or the target is such |
| Agreement.KraActsInPythonOnly | noe/noe_parser.py:1997-2001 | behind a kra instead, Python acts under the same conditions and Rust never does |
| Agreement.StrictKhiDivides | noe/noe_parser.py:2561-2613 | khi over operands they agree on: always in partial mode, and in strict mode if and only if the condition neither holds nor is an error |
| Agreement.BareKeysDivide | rust/noe_core/src/eval.rs:246-275 | for an ungrounded literal known at most under its bare key that is exactly when it is not known |
| Meanings.RustConditionalMeans | rust/noe_core/src/eval.rs:1008-1023 | the Rust khi, for every result of the condition |
| Meanings.RustShiMeans | rust/noe_core/src/eval.rs:143-296 | the Rust shi on an expression: by the key of the literal it comes to, else undefined or its error |
| Meanings.RustFactMeans | rust/noe_core/src/eval.rs:254-296 | the Rust shi on a stored fact: a number is true exactly when it is above 0 |
| Meanings.FactsDivide | rust/noe_core/src/eval.rs:254-296 | so on one stored fact the evaluators let a guarded action through alike if and only if, in partial mode, it is no negative number and no true value inside a list or truth object, and in strict mode no positive number |
| Agreement.FalseHidesErrorInRustOnly | rust/noe_core/src/eval.rs:431-448 | `false an shi @unknown` in strict mode: false in Rust, an error in Python |
| Agreement.TrueHidesErrorInRustOnly | rust/noe_core/src/eval.rs:450-466 | `true ur shi @unknown` in strict mode: true in Rust, an error in Python |
| Agreement.ParenthesesHideErrorInPythonOnly | noe/noe_parser.py:1225-1317 | `nai (shi @unknown)` in strict mode: undefined in Python, an error in Rust; without the parentheses an error in both |
| Projection.Candidates | noe/context_projection.py:83-117 | keeps exactly the entries that pass freshness, confidence and authority |
| Projection.GroupByPredicate | noe/context_projection.py:272-277 | one non-empty list per predicate, holding its candidates |
| Projection.LeadingEdge | noe/context_projection.py:294-306 | exactly the entries within the window of the newest |
| Projection.Settle | noe/context_projection.py:373-394 | the loop with its skips and breaks agrees on a key if and only if it is the only key any group voted for, and some group did |
| Projection.VoteByGroups | noe/context_projection.py:308-399 | group quorum decides as flat agreement: for any grouping, a value is accepted if and only if all usable readings have its key |
| Projection.PiSafe | noe/context_projection.py:238-435 | promotes a key for a predicate if and only if the window-consensus rule does; one value per predicate, each as some leading reading reported it |
| Projection.ConsensusIgnoresOrder | noe/context_projection.py:266-399 | the rule does not depend on the order or repetition of the evidence |
| Projection.ConsensusHasWitness | noe/context_projection.py:83-116 | a promoted value has a reading with age from -200 ms to the staleness limit, enough confidence and an allowed source, and is the only one promoted for its predicate |
| Projection.ConsensusMeans | noe/context_projection.py:83-399 | the rule in full, over the fields of the readings: exactly those at most 200 ms ahead, not stale, confident, allowed, and within the window of all others are counted |
| Projection.ConflictHasNoConsensus | noe/context_projection.py:373-399 | two such readings with different keys exclude every promotion of their predicate |
| Projection.KeysMean | noe/context_projection.py:325-371 | which readings are usable, and when two count as equal: one type and one value, or one canonical text |
| SafeContext.SectionIsStable | noe/noe_validator.py:375-549 | every allow-listed section, once cleaned, is left as it is by cleaning again |
| SafeContext.SafeContextIsFixed | noe/noe_validator.py:375-569 | rebuilding from a safe context gives the same safe context if and only if all consensus values are scalars |
| SafeBuild.ExtractEvidence | noe/context_projection.py:438-497 | the list holds exactly the entries that are well formed, from all layers of a structured context or from a flat one |
| SafeBuild.BuildSafeContext | noe/noe_validator.py:264-590 | the result is the one the rule describes: an error exactly when strict mode finds evidence without consensus, else the cleaned sections with the consensus values over literals and knowledge; with the hashes of the raw layers, and the hash of the safe context taken before the meta part that lists all four |
| SafeBuild.SafeEntries | noe/noe_validator.py:375-569 | each entry of the literals and of the knowledge is the consensus value, else the scalar the merged layers hold, else absent |
| SafeBuild.OnlyCanonicalSubtrees | noe/noe_validator.py:375-584 | nothing but the nine canonical subtrees and the meta part is in a safe context; evidence never is |
| SafeBuild.StrictIsSound | noe/noe_validator.py:354-373 | a strict success means that every predicate with evidence has a consensus, whose value the knowledge and the literals hold |
| SafeBuild.AgreementHasWitness | noe/noe_validator.py:340-352 | behind each consensus value is an entry at most 1000 ms old and confident enough |
| SafeBuild.BuildIsIdempotent | noe/noe_validator.py:264-590 | a safe context fed back as the local layer, under any clock and in either mode, builds the same safe context and H_safe, exactly when all consensus values were scalars |
| SafeMeanings.AgreementMeans | noe/noe_validator.py:313-352 | the evidence agrees on a value if and only if some latest entry reads as it and all latest entries do: those confident, at most 200 ms ahead and 1000 ms old, and at most 100 ms behind any other such |
| SafeMeanings.ConflictIsStale | noe/noe_validator.py:354-373 | two latest entries that read differently make a strict build stale, and leave a partial one with the scalar the layers hold |
| SafeMeanings.StrictMeans | noe/noe_validator.py:354-373 | a strict build succeeds if and only if each predicate with evidence has latest entries and they all read alike |
| SafeMeanings.ClockMeans | noe/noe_validator.py:329-338 | the time is what the context says, converted, and else the one the caller gave |
| SafeMeanings.TruncationMeans | noe/noe_validator.py:333-336 | a float converts to the integer next to it towards zero |
| SafeMeanings.WholeMeans | noe/noe_validator.py:333-336 | a whole float converts to its value |
| SafeMeanings.ReadingsMean | noe/context_projection.py:325-371 | two JSON values count as one reading if and only if they are the same scalar, or structures with one canonical text |
| SafeMeanings.EntryMeans | noe/context_projection.py:468-496 | which entries are readings, and which reading each is, field by field |
| SafeMeanings.ShardsMean | noe/context_projection.py:446-462 | where evidence is looked for, in a flat and in a layered context, and when that raises |
| SafeMeanings.LayersMean | noe/noe_validator.py:313-318 | the merged context path by path: local over domain over root, a layer that is no dict counting as empty |
| SafeMeanings.MetaMeans | noe/noe_validator.py:571-590 | the meta part holds exactly the four hashes by their names, the last being that of everything else in the safe context |
| SafeMeanings.TemporalMeans | noe/noe_validator.py:393-403 | of time exactly four fields are kept, if they are integers |
| SafeMeanings.ModalMeans | noe/noe_validator.py:405-417 | of belief and certainty exactly the scalars |
| SafeMeanings.AxiomsMean | noe/noe_validator.py:419-424 | of the axioms exactly the value system |
| SafeMeanings.SpatialMeans | noe/noe_validator.py:427-434 | of space exactly three parameters |
| SafeMeanings.EntitiesMean | noe/noe_validator.py:436-475 | of each entity the numbers of four vectors |
| SafeMeanings.RelationsMean | noe/noe_validator.py:477-500 | of each relation the truth values, from the older name where the newer one is missing or empty |
| SafeMeanings.AuditMeans | noe/noe_validator.py:502-504 | of an audit only that there is one |
| SafeMeanings.DeliveryStatusMeans | noe/noe_validator.py:506-517 | of the delivery status the texts |
| SafeMeanings.DeliveryItemsMean | noe/noe_validator.py:519-549 | of each delivery item four fields by type, and nothing of one with a time that is no integer |
| SafeMeanings.EmptySectionsMean | noe/noe_validator.py:384-549 | which sections are there although empty, and which are not |
| SafeMeanings.EmptyEntitiesGo | noe/noe_validator.py:442-475 | no entity and no vector is kept empty |
| SafeMeanings.EmptyRelationsGo | noe/noe_validator.py:485-500 | no relation and no subject is kept empty |
| SafeMeanings.EmptyItemsGo | noe/noe_validator.py:405-549 | no delivery item and no kind of belief is kept empty |
| DeepMerge.DeepMerge | noe/context_manager.py:151-170 | the copy-and-assign loop computes the merge |
| DeepMerge.DeepMergeInPlace | rust/noe_core/src/context.rs:134-150 | Rust's in-place merge leaves the same tree |
| DeepMerge.MergedLayers | rust/noe_core/src/context.rs:120-127 | the merged layers Rust evaluates over are the Python snapshot's view |
| DeepMerge.EmptyIsIdentity | noe/context_manager.py:151-170 | the empty layer is an identity on both sides |
| DeepMerge.MergeIsIdempotent | noe/context_manager.py:151-170 | merging a value with itself changes nothing |
| DeepMerge.MergeAbsorbsOverlay | noe/context_manager.py:151-170 | merging an overlay twice is merging it once |
| DeepMerge.AbsorbsExactly | noe/context_manager.py:151-170 | an overlay replaces a base entirely if and only if it has every key the base has wherever both are objects |
| DeepMerge.AssociativeExactly | noe/context_manager.py:151-170 | merging is associative on a, b, c if and only if no object of a lies under a non-object of b and an object of c that does not absorb it |
| DeepMerge.AssociativityFails | noe/context_manager.py:151-170 | where it is not: any non-empty object, a scalar, the empty object |
| DeepMerge.ViewIsIncremental | noe/context_manager.py:401-405 | patching the local layer patches the merged view, exactly under that condition |
| DeepMerge.OverlayLeafWins | noe/context_manager.py:151-170 | a leaf of the overlay is found at its path in the merge, whatever the base |
| DeepMerge.SparedPathStays | noe/context_manager.py:151-170 | a path the overlay does not mention keeps its value |
| DeepMerge.LocalThenDomainThenRoot | noe/context_manager.py:401-405 | at every path the view has the leaf of local, else that of domain, else what root has |
| ContextManager.Manager.Create | noe/context_manager.py:273-325 | refuses non-dict layers, then an oversized root or domain; otherwise the manager's cached digests are those of its layers |
| ContextManager.Manager.TakeSnapshot | noe/context_manager.py:370-437 | fails only on an oversized local layer; hashes, view and staleness flag are those of the layers held |
| ContextManager.Manager.UpdateLocal | noe/context_manager.py:444-475 | keeps the digest invariant; installs the merge, or changes nothing on a non-dict or an oversized result |
| ContextManager.Manager.ReplaceLocal | noe/context_manager.py:477-493 | the same for replacing |
| ContextManager.Manager.UpdateDomain | noe/context_manager.py:495-514 | the same for the domain, with the cached digest replaced along with it |
| ContextManager.Manager.ReplaceDomain | noe/context_manager.py:516-534 | the same for replacing the domain |
| ContextManager.Manager.UnsafeReplaceRoot | noe/context_manager.py:536-554 | the same for the root |
| ContextManager.RunKeepsLimits | noe/context_manager.py:297-554 | over any sequence of calls root and domain stay within the size limit, and the local layer exceeds it only while it is the one given at construction |
| ContextManager.RunKeepsRoot | noe/context_manager.py:444-554 | no call but the one named unsafe changes the root |
| ContextManager.RepeatedPatchChangesNothing | noe/context_manager.py:444-514 | delivering a patch twice is delivering it once, accepted or not |
| ContextManager.PatchPatchesView | noe/context_manager.py:401-474 | after an accepted patch the next view is the patched old view, exactly where no lower object is uncovered |
| ContextManager.CompositeHashBindsLayers | noe/context_manager.py:407-418 | without collisions, two states have one composite hash if and only if all three layers are equal |
| Hysteresis.UpdateOne | noe/hysteresis_adapter.py:87-160 | the latch, its counters and the time-to-live for one key, as the tick function says |
| Hysteresis.EmitKey | noe/hysteresis_adapter.py:254-289 | what one key emits, branch by branch: a value, an explicit None, an empty entry or nothing, and the raw confidence |
| Hysteresis.ApplyAdapter | noe/hysteresis_adapter.py:166-318 | over sorted canonical keys: every key with state or input and a policy is ticked once, other keys are pruned, and the delta holds exactly what each key emits |
| Hysteresis.CanonicalKeyIsIdempotent | noe/hysteresis_adapter.py:215-224 | canonical keys start with @ and stay as they are, so state keys meet the next tick's inputs |
| DeltaMeanings.OutputMeans | noe/hysteresis_adapter.py:254-289 | what the delta of a tick holds for a key, field by field over the two states: a stable value when due, the level of this tick or a clearing null under certainty, and this tick with either |
| DeltaMeanings.ChangeOnly | noe/hysteresis_adapter.py:265-274 | under the change-only policy without certainty, a key is in the outputs if and only if it is new or its stable value differs |
| DeltaMeanings.SilenceMeans | noe/hysteresis_adapter.py:254-318 | the delta of a tick is empty if and only if full states are not asked for and no tracked key is news, due or certain |
| DeltaMeanings.UnchangedIsSilent | noe/hysteresis_adapter.py:254-318 | so under change-only policies a tick that changes no stable value has the empty delta |
| DeltaMeanings.TraceMeans | noe/hysteresis_adapter.py:291-295 | the state of a key is in the delta if and only if it is news or all states are asked for, with exactly its five fields |
| DeltaMeanings.OnlyTrackedKeys | noe/hysteresis_adapter.py:222-240 | the keys of the next state, and so of the delta, are those with a policy and an input or a state |
| DeltaMeanings.CanonicalKeyMeans | noe/hysteresis_adapter.py:215-220 | a key is trimmed of white space, and gets an @ in front unless it has one |
| DeltaMeanings.SpacesMean | noe/hysteresis_adapter.py:215-220 | which characters are white space there |
| DeltaMeanings.InputMeans | noe/hysteresis_adapter.py:215-220 | of the raw inputs that mean one key the last one counts |
| HysteresisRuns.DeltasCarryState | noe/hysteresis_adapter.py:227-318 | after any run from the empty state, any context into which all deltas were merged shows the stable value of every tracked key, an undefined one as null |
| HysteresisRuns.ViewShowsState | noe/context_manager.py:401-475 | so does the merged view of a context manager patched with each delta, whatever its layers hold, as long as the patches are accepted |
| HysteresisRuns.StateIsKeyRun | noe/hysteresis_adapter.py:222-252 | keys do not influence each other: a key's state after a run is that of its own samples |
| HysteresisRuns.MissingCountIsTrailingRun | noe/hysteresis_adapter.py:110-135 | the missing count is the length of the run of missing samples at the end; an invalid one ends the run |
| HysteresisRuns.OtherFieldsAreExact | noe/hysteresis_adapter.py:110-158 | the last tick, the level of the last finite sample and the number of invalid ones |
| HysteresisRuns.StableIsLastDecision | noe/hysteresis_adapter.py:110-160 | the stable value is that of the last decisive sample (threshold reached or time-to-live exceeded), False before any; an undefined one gives way to False at the next finite sample |
| HysteresisRuns.LatchWithoutTtl | noe/hysteresis_adapter.py:137-160 | without a time-to-live: true if and only if the upper threshold was reached and the lower one not since |
| AstCache.Cache.Lookup | noe/noe_parser.py:93-99 | the first locked section: finds the entry and moves it to the end |
| AstCache.Cache.Add | noe/noe_parser.py:106-118 | the second locked section: looks again, evicts the oldest entry when full, adds, returns what is cached |
| AstCache.EveryRunIsConsistent | noe/noe_parser.py:77-118 | for any number of threads and any interleaving of the sections: at most 1000 entries, each the plain parse of a chain of at most 2048 characters; they are the most recently used distinct chains in order of use; every call returns the plain parse or fails as the parser does |
| AstCache.RecentIsByLastUse | noe/noe_parser.py:93-118 | what that order means: each key used, once, by its last use |
| CacheMeanings.LruExactly | noe/noe_parser.py:77-118 | after any run of any threads a chain is cached if and only if it was used and fewer than 1000 other chains were since its last use |
| CacheMeanings.ServedAreUses | noe/noe_parser.py:93-118 | the uses are the calls on chains of at most 2048 characters that came back with a tree, in the order they did |
| CacheMeanings.CallCompletes | noe/noe_parser.py:77-118 | whatever other threads do meanwhile, a call is over after three turns of its thread and returns the plain parse, or fails if the parser does |
| GateNode.DefaultChainGates | ros2_adapter/noe_ros2_adapter/src/context_builder.cpp:31-91 | over the context the node builds, whose keys carry the @ that a parsed literal lacks, the default chain lets the action through exactly when the zone is clear |
| GateNode.DefaultChainInPython | ros2_adapter/noe_ros2_adapter/src/context_builder.cpp:31-91 | in the Python evaluator the same chain over the same context gives that action itself, on the same condition, in either mode |
| GateNode.VerdictMeans | ros2_adapter/noe_ros2_adapter/src/noe_gate_node.cpp:208-275 | permitted, blocked or failed, for every chain: by the result if it counts, and when it counts |
| GateNode.Node.OnConfigure | ros2_adapter/noe_ros2_adapter/src/noe_gate_node.cpp:50-99 | parameters are stored before they are checked; the sensor state is reset only on success |
| GateNode.Node.OnZoneClear | ros2_adapter/noe_ros2_adapter/src/noe_gate_node.cpp:188-196 | an inactive node takes no reading |
| GateNode.Node.EvaluateAndPublish | ros2_adapter/noe_ros2_adapter/src/noe_gate_node.cpp:208-293 | stale or unevaluated means no; one answer and one record for each call |
| GateNode.RunTracksHistory | ros2_adapter/noe_ros2_adapter/src/noe_gate_node.cpp:50-196 | while configured, the sensor state is the latest reading taken since the latest successful configuration, and the parameters are that configuration's |
| GateNode.ProposalIsAnswered | ros2_adapter/noe_ros2_adapter/src/noe_gate_node.cpp:198-293 | with the default chain an active node answers a proposal once and records it once; the answer is yes exactly when that reading was true and fresh and the evaluation gave a result |
| GateNode.PublishedIsJustified | ros2_adapter/noe_ros2_adapter/src/noe_gate_node.cpp:188-293 | over any run with the default chain the answers published are exactly those |
| GateNode.RecordsMatchAnswers | ros2_adapter/noe_ros2_adapter/src/noe_gate_node.cpp:276-330 | over any run, with any chain, one record for each proposal handled, agreeing with its answer |
| GateNode.LogOnlyGrows | ros2_adapter/noe_ros2_adapter/src/noe_gate_node.cpp:324-330 | a run never rewrites what was recorded |

## Left out

- CompositeHash.ShardDigest: only values without floats, because the printing of floats (`python_float_repr`) is not modelled; the original hashes floats here too.
- CompositeHash.CompositeHash: only float-free layers, for the same reason.
- CompositeHash.CompositeHashBindsContext: only float-free layers, for the same reason.
- CanonicalWriter.WriteValue: only values without floats, for the same reason.
- CanonicalWriter.CanonicalTextDecodes: only values without floats, for the same reason.
- CanonicalWriter.CanonicalTextIsInjective: only values without floats, for the same reason.
- Agreement.EvaluatorsAgree: knowledge values are booleans; Rust's own literal and `vek` lookups are not compared.
- Grounding.MonotoneExactly: the smaller context answers with scalars or lists of one, and neither context with null, keywords of a scope, or dicts the evaluator makes itself.
- ProposalDag.RunStaysAcyclic: for actions whose nested hashes were produced by hashing, which ProposalDag.FinalizedIsGenuine shows for what the evaluator itself returns.
- ProposalDag.Evaluator.Finalize: what an abandoned hashing (a float in the data) has already written into the object is not stated.
- ContextManager.CompositeHashBindsLayers: needs a serializer that is injective on the layers compared; Python's own printer is not modelled.
- HysteresisRuns.DeltasCarryState: from the empty state and under one policy; a policy that drops a key also leaves its last output in the context.
- SafeBuild.ExtractEvidence: an entry whose source is a dict or a list, on which the original raises, is read as having a name.
- GateNode.ProposalIsAnswered: the strict validator of the Rust core is abstract, an outcome of the call.
- Expressions: spatial, temporal, comparison and quantifier operators, vek and sha, delivery and audit actions, noq requests, questions, morphology, and text values spelled like one of these operators.
- Evaluator values: a dict of the context with an entry named value, which a binary operator would unwrap; children that evaluate to null, which the tree visitor drops, and lists shared with the context, which the juxtaposition loop can extend in place.
- Layered knowledge: the evaluator's own lookup of a shard split over several layers; the evaluators are compared on one merged context.
- Action objects with cycles or shared parts in memory, and child hashes that are not JSON scalars usable as keys.
- The Python printer, its backspace, form feed and DEL (which it escapes as the Rust printer does not), and any claim of RFC 8785 conformance.
- Hexadecimal rendering of digests, which loses nothing, and frozen copies of layers, which hold the same values.
- Adapter state handed in from outside with missing fields, and keys that differ only in what Unicode normalization would merge.
- The grammar hash in cache keys, constant for a process, and the parser lock, which only serializes the parser.
- Callbacks that race with a shutdown of the node, certificate files on disk, and the JSON of records and decisions.
- Explanations of projected literals, required-context paths (an abstract gate), and the debug output.
- Negotiation between agents, agent authentication, the token scan for misused actions, and the other Rust and Python validators.
