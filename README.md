# helm-hooks hook engine, modelled in Dafny

This project models the hook engine of helm-hooks (package `internal/hook`). The engine reads a
stream of Kubernetes manifests that carry Helm hook annotations and rewrites them:

- `helm.sh/hook` may list several comma-separated events. The engine splits such a resource into
  one replica per event. By default each replica's name gets a `-<event>` suffix, and a name over 63
  characters is cut and given an 8-character hash. The suffix is switched off by
  `helm.sh/hook-name-suffix: "false"`.
- Weights come from `helm.sh/hook-weights` (`event=weight` pairs), from a comma-separated
  `helm.sh/hook-weight` (one per event, or one for all of them), or default to 0.
- `HELM_HOOK_EVENT` and `HELM_HOOK_WEIGHT` are added to or updated in every container and init
  container, unless `helm.sh/hook-env` says otherwise.
- Events are checked against Helm's eleven hook names, and duplicates are refused.
- Documents without hook annotations pass through unchanged.

The YAML tree is a value: `Tree.Node(kind, tag, style, value, content)`. In a mapping node, pair k
has its key at `content[2k]` and its value at `content[2k+1]`, and every lookup finds the first pair
whose key matches, as the Go loops do.

Each Go function that edits the tree in place becomes a `method` that returns the edited tree. Each
loop in the source is a `while` loop with invariants. Every such method is proved equal to a
specification function (`Annotated`, `EnvSet`, `SpecInjected`, `Weights`, `ProcessedDocument`, …),
and the lemmas state what the source promises about those functions:

- explicit weights override `helm.sh/hook-weight`;
- setting the env vars twice equals setting them once;
- annotations written and weights listed read back;
- the first error stops the pipeline;
- the documents are joined with `---` separators.

Modules:

| module | what it holds |
|---|---|
| `Wrappers` | `Option`, `Result` and `Outcome` |
| `Text` | the parts of Go's `strings` and `strconv` that the engine uses |
| `Tree` | the YAML node and its mapping lookups and edits |
| `Naming` | naming.go |
| `Validator` | validator.go |
| `Resolver` and `ResolverProps` | resource parsing, event parsing and weight resolution from processor.go |
| `Mutator` | the annotation and name setters |
| `Env` and `EnvProps` | env injection |
| `Splitter` | splitter.go |
| `Processor` and `ProcessorProps` | `processDocument`, `Process` and `combineDocuments` |

## Model

| member | source | states |
|---|---|---|
| Text.TrimSpace | internal/hook/processor.go:277 | the result is no longer than the input and has no leading or trailing ASCII white space, and an already trimmed text is returned unchanged (that it is a slice of the input is Text.TrimSpaceSlice) |
| Text.TrimSpaceSlice | internal/hook/processor.go:277 | the result is a contiguous slice of the input that starts after the leading white space, and everything before and after that slice is white space: only white space at the ends is removed and the order is kept |
| Text.TrimSpaceKeeps | internal/hook/processor.go:277 | trimming removes only white space: every other character is in the result exactly when it is in the input |
| Text.Split | internal/hook/processor.go:276 | strings.Split on one separator: at least one part, no part contains the separator, and joining the parts with it gives the input back |
| Text.SplitJoin | internal/hook/processor.go:276 | splitting a join of separator-free parts gives back exactly those parts |
| Text.Cut | internal/hook/processor.go:350-356 | SplitN(pair, "=", 2): none exactly when there is no '='; otherwise the left part has no '=' and left + "=" + right is the input |
| Text.CutFirst | internal/hook/processor.go:350-356 | cutting at the first separator of h + sep + d gives (h, d) |
| Text.ToLower | internal/hook/processor.go:116 | same length, every character lower-cased (ASCII) |
| Text.ParseInt | internal/hook/processor.go:198 | strconv.Atoi: a parsed text is non-empty and holds no comma and no white space |
| Text.ParseIntAccepts | internal/hook/processor.go:198 | strconv.Atoi accepts exactly a run of digits with an optional '+' or '-' in front, and the value is negative only under '-' |
| Text.DecimalString | internal/hook/processor.go:388 | strconv.Itoa: a minus sign exactly for negative numbers and no leading zero |
| Text.DecimalStringParses | internal/hook/processor.go:388 | Atoi(Itoa(n)) == n for every integer, and the text has no comma and no white space |
| Tree.FindKey | internal/hook/processor.go:417-422 | the key scan every helper repeats: the first pair whose key matches, or none when no key matches |
| Tree.KeyPos | internal/hook/processor.go:417-422 | the first matching pair: its key matches, no earlier pair's key does, and none is found exactly when the key is absent |
| Tree.LookupReplaceValue | internal/hook/processor.go:454 | overwriting the value of the pair found for a key is read back under that key, and every other key reads as before |
| Tree.LookupAppendPair | internal/hook/processor.go:463-466 | appending a pair leaves every existing key's lookup alone, and a new key reads back the appended value |
| Tree.DropPairKeys | internal/hook/processor.go:510 | cutting out pair p removes exactly key p from the key list, in order |
| Tree.DropPairLookup | internal/hook/processor.go:510 | cutting out a pair leaves the lookup of every other key unchanged |
| Tree.PutValueOf | internal/hook/processor.go:417-422 | writing the value under the first matching key is read back, changes no other key's value and no key, and is a no-op without the key |
| Tree.WithRoot | internal/hook/processor.go:204-208 | the edited root goes back into its document node, and putting back the same root changes nothing |
| Naming.TruncateName | internal/hook/naming.go:72-81 | a short name is kept; a long one becomes a prefix of at most maxLen characters that does not end in '-' |
| Naming.BaseRoom | internal/hook/naming.go:41-52 | the room left for the base is at least one character, and exactly 53 - len(event) when the event has at most 52 characters |
| Naming.CapLength | internal/hook/naming.go:60-63 | the hard cut keeps a name of at most 63 characters and otherwise its first 63 characters |
| Naming.TruncateWithHash | internal/hook/naming.go:33-69 | the result never exceeds 63 characters and never ends in '-' |
| Naming.GenerateName | internal/hook/naming.go:18-29 | name-event when that fits in 63 characters; otherwise at most 63 characters with no trailing '-' |
| Naming.GenerateNameShape | internal/hook/naming.go:33-69 | for an over-long name and an event of at most 52 characters: a prefix of the original name, then "-event-hash", with the hash of "name-event" |
| Naming.TruncatedWithHash | internal/hook/naming.go:41-58 | the base is cut to 53 - len(event) characters and the event and hash parts are kept whole |
| Naming.GenerateNameDistinct | internal/hook/naming.go:18-29 | two different events give two different names when neither name needs truncating |
| Validator.CheckHooksPassIff | internal/hook/validator.go:24-41 | validation passes exactly when every event is one of the eleven Helm hooks and no event repeats |
| Validator.CheckHooksReportsFirst | internal/hook/validator.go:27-37 | the error reports the first offending event: an unknown name or a repeat of an earlier one |
| Validator.ValidateHooks | internal/hook/validator.go:24-41 | the loop with its seen-set returns the first offence, or passes |
| Validator.ValidateAnnotations | internal/hook/validator.go:44-74 | no hook annotation passes; a pass means the events are non-empty, known and distinct; an error names the resource |
| Validator.ValidateAnnotationsChecks | internal/hook/validator.go:50-73 | each branch's verdict: the empty-events error, the first bad event, pass iff hook-weights parses (else its error), and otherwise pass iff hook-weight has at most one part or one per event (else the count mismatch with both counts) |
| Validator.ValidateAnnotationsPassIff | internal/hook/validator.go:44-74 | a hook resource passes exactly when its events are non-empty, known and distinct, hook-weights parses, and otherwise hook-weight has at most one part or one part per event |
| Resolver.AnnotationsLastWins | internal/hook/processor.go:261-265 | when an annotation key occurs more than once, the last value wins |
| Resolver.AnnotationsKeep | internal/hook/processor.go:261-265 | keys that do not occur in the annotations keep their earlier values |
| Resolver.ParseMetadata | internal/hook/processor.go:247-271 | the metadata loop gives the name and the annotations of the metadata mapping |
| Resolver.ParseResource | internal/hook/processor.go:212-244 | the top-level loop gives the kind and the metadata of the document's root mapping; a root that is not a mapping gives the empty resource |
| Resolver.HookEvents | internal/hook/processor.go:274-283 | the events are trimmed, non-empty and comma-free, and there are none exactly when every comma-separated part is blank |
| Resolver.ParseHookEvents | internal/hook/processor.go:274-283 | the loop keeps the trimmed non-blank parts in order |
| Resolver.HookEventsRoundTrip | internal/hook/processor.go:274-283 | parsing a comma-join of trimmed, non-empty, comma-free events gives those events back |
| Resolver.ExtractHooksFromWeights | internal/hook/processor.go:170-190 | the left-hand names of the pairs in order; a pair without '=' and a mapping without names are errors |
| Resolver.ExplicitWeights | internal/hook/processor.go:335-378 | a successful result has exactly the events as keys |
| Resolver.ParseExplicitWeights | internal/hook/processor.go:335-378 | the loop, with its lookup of known events, computes the explicit weights or their first error |
| Resolver.IsKnownHook | internal/hook/processor.go:359-365 | found exactly when the name is one of the events |
| Resolver.DefaultWeights | internal/hook/processor.go:288-293 | every event is mapped to the default weight 0 |
| Resolver.Weights | internal/hook/processor.go:287-332 | a successful resolution gives a weight to exactly the events |
| Resolver.BroadcastWeight | internal/hook/processor.go:305-313 | a single weight is given to every event |
| Resolver.PositionalWeights | internal/hook/processor.go:322-328 | weight i goes to event i, and the first unparsable weight is an error |
| Resolver.ParseWeights | internal/hook/processor.go:287-332 | the precedence chain: explicit mapping, then comma-separated weights, then the default |
| ResolverProps.ExplicitWins | internal/hook/processor.go:295-298 | with hook-weights present, hook-weight has no effect at all |
| ResolverProps.SingleWeightOnePart | internal/hook/processor.go:193-200 | a single valid weight is one part under Split, so it takes the broadcast branch |
| ResolverProps.WeightBroadcast | internal/hook/processor.go:304-314 | a comma-free hook-weight succeeds exactly when it parses, every event gets that weight, and a failure reports the raw value |
| ResolverProps.WeightCountChecked | internal/hook/processor.go:316-320 | several weights in a number different from the events' is a count mismatch carrying both counts |
| ResolverProps.PositionalOk | internal/hook/processor.go:322-328 | positional resolution succeeds exactly when every part parses |
| ResolverProps.PositionalErr | internal/hook/processor.go:322-326 | a positional failure is the invalid-weight error carrying a part that does not parse |
| ResolverProps.PositionalAssign | internal/hook/processor.go:322-328 | when every part parses, the result is the weights assigned in order |
| ResolverProps.AssignValues | internal/hook/processor.go:322-328 | with distinct events, event i gets weight i and other keys keep their values |
| ResolverProps.WeightPositionalChecked | internal/hook/processor.go:316-328 | a matching count of weights succeeds exactly when each part parses, and an error names an unparsable part |
| ResolverProps.WeightPositional | internal/hook/processor.go:322-328 | with distinct events and weights that parse, event j gets weight j |
| ResolverProps.WeightDefault | internal/hook/processor.go:288-293 | with neither annotation, every event has weight 0 |
| ResolverProps.WeightNamesPairs | internal/hook/processor.go:170-190 | the names of rendered event=weight pairs are those events in order |
| ResolverProps.ExplicitFromPairs | internal/hook/processor.go:344-375 | rendered pairs for known distinct events set exactly those weights and leave every other key alone |
| ResolverProps.ExplicitRoundTrip | internal/hook/processor.go:170-190 | rendering event=weight pairs and parsing them back gives the same events, the same weights, and 0 for the unlisted events |
| ResolverProps.ExplicitUnnamedZero | internal/hook/processor.go:338-341 | an event that the mapping does not name keeps the default weight 0 |
| ResolverProps.MalformedPairRejected | internal/hook/processor.go:177-179 | a pair without '=' is rejected by both parsers, and the error carries the pair |
| ResolverProps.UnknownHookRejected | internal/hook/processor.go:366-368 | a weight for an event the resource does not have is rejected and names that event |
| ResolverProps.BadWeightRejected | internal/hook/processor.go:370-373 | an unparsable weight for a known event is rejected and names the event |
| ResolverProps.NoNamesNoHooks | internal/hook/processor.go:172-176 | blank parts contribute no names |
| ResolverProps.BlankWeightsRejected | internal/hook/processor.go:186-188 | a hook-weights value of only blank parts is the "no hooks" error |
| Mutator.UpsertedLookup | internal/hook/processor.go:446-469 | after setAnnotationValue the key reads back as a double-quoted !!str value, other keys read as before, and the key list gains the key at the end only when it was missing |
| Mutator.UpsertedTwice | internal/hook/processor.go:446-469 | setting a key twice equals setting it once to the second value |
| Mutator.WithoutKeyLookup | internal/hook/processor.go:502-514 | the first pair with the key is removed and other pairs keep their order; an absent key changes nothing; other keys' lookups are unaffected |
| Mutator.SetAnnotationValue | internal/hook/processor.go:446-469 | the find-or-append loop computes the upsert |
| Mutator.RemoveAnnotationKey | internal/hook/processor.go:502-514 | the find-and-splice loop computes the removal |
| Mutator.AnnotatedView | internal/hook/processor.go:411-442 | setAnnotation upserts inside an existing metadata.annotations only; name, top-level keys and other top-level values are untouched |
| Mutator.UnannotatedView | internal/hook/processor.go:472-499 | removeAnnotation edits only metadata.annotations and is a no-op without it |
| Mutator.RenamedView | internal/hook/splitter.go:92-121 | setMetadataName overwrites only the text of an existing metadata.name and leaves the annotations and the rest alone |
| Mutator.SetAnnotationInMetadata | internal/hook/processor.go:428-442 | the metadata scan upserts into the first annotations mapping and never creates one |
| Mutator.SetAnnotation | internal/hook/processor.go:411-425 | the root scan reaches the first metadata mapping |
| Mutator.RemoveAnnotationFromMetadata | internal/hook/processor.go:487-499 | the metadata scan removes from the first annotations mapping |
| Mutator.RemoveAnnotation | internal/hook/processor.go:472-484 | the root scan reaches the first metadata mapping |
| Mutator.SetNameInMetadata | internal/hook/splitter.go:108-121 | the scan overwrites the first name value's text only |
| Mutator.SetMetadataName | internal/hook/splitter.go:92-105 | the root scan reaches the first metadata mapping |
| Env.FirstNamed | internal/hook/processor.go:655-658 | the first env entry that has `name: <name>`, or none when no entry has it |
| Env.HasNameVar | internal/hook/processor.go:657-658 | the pair scan finds `name: <name>` exactly when the entry has it |
| Env.AddOrUpdateEnvVar | internal/hook/processor.go:649-690 | the first entry with the name gets its value upserted; otherwise a new name/value entry is appended; a non-sequence is untouched |
| Env.HookVarsSteps | internal/hook/processor.go:641-642 | the event variable is set first, then the weight variable |
| Env.InjectEnvInContainer | internal/hook/processor.go:617-645 | both variables set in the first env list, or in a new env list appended when there is none |
| Env.InjectEnvInContainers | internal/hook/processor.go:604-614 | every mapping entry of a container list is injected and other entries are kept |
| Env.InjectEnvInPodSpec | internal/hook/processor.go:588-601 | every containers or initContainers list of the pod spec is injected |
| Env.InjectEnvInSpec | internal/hook/processor.go:533-555 | containers lists before the first template or jobTemplate are injected; that template is entered and the scan stops there |
| Env.InjectEnvInPodTemplate | internal/hook/processor.go:558-570 | the first spec of a pod template is treated as a pod spec |
| Env.InjectEnvInJobTemplate | internal/hook/processor.go:573-585 | the first spec of a job template is treated as a spec in its own right |
| Env.InjectEnvVars | internal/hook/processor.go:517-530 | the root's first spec is injected with the weight's decimal text |
| EnvProps.UpsertedNames | internal/hook/processor.go:660-666 | updating an entry's value does not change which names it has |
| EnvProps.EnvVarNames | internal/hook/processor.go:680-689 | a newly built entry has exactly its own name |
| EnvProps.SettledFixed | internal/hook/processor.go:649-690 | setting a variable to the value it already has changes nothing |
| EnvProps.EnvSetStep | internal/hook/processor.go:649-690 | setting one of the two hook variables settles it and does not move the other one's entry |
| EnvProps.HookVarsSets | internal/hook/processor.go:641-642 | afterwards both variables read back their values, an entry is added only for a variable that was missing, and existing entries stay where they were |
| EnvProps.HookVarsSettled | internal/hook/processor.go:641-642 | after the two calls both variables have an entry that already holds its value, where an entry naming both holds the weight written last; this holds for any env list |
| EnvProps.HookSettledFixed | internal/hook/processor.go:641-642 | on a list in that state the two calls change nothing |
| EnvProps.HookVarsTwice | internal/hook/processor.go:641-642 | setting both variables twice equals setting them once, including on an entry that names both variables |
| EnvProps.ContainerSets | internal/hook/processor.go:617-645 | after injection the container has an env list in which both variables read back |
| EnvProps.ContainerScope | internal/hook/processor.go:617-645 | injection only adds or edits the env key: the other keys and their values are untouched |
| EnvProps.ContainerTwice | internal/hook/processor.go:617-645 | injecting a container twice equals injecting it once |
| EnvProps.ContainersTwice | internal/hook/processor.go:604-614 | injecting a container list twice equals injecting it once |
| EnvProps.PodSpecTwice | internal/hook/processor.go:588-601 | injecting a pod spec twice equals injecting it once |
| EnvProps.PodTemplateTwice | internal/hook/processor.go:558-570 | injecting a pod template twice equals injecting it once |
| EnvProps.SpecInjectedKeys | internal/hook/processor.go:533-555 | injection keeps the spec's keys |
| EnvProps.SpecTwice | internal/hook/processor.go:533-555 | injecting a spec twice equals injecting it once, through nested job templates |
| EnvProps.JobTemplateTwice | internal/hook/processor.go:573-585 | injecting a job template twice equals injecting it once |
| EnvProps.EnvInjectedTwice | internal/hook/processor.go:517-530 | env injection is idempotent, so re-processing an enhanced resource does not duplicate variables |
| EnvProps.EnvInjectedScope | internal/hook/processor.go:517-530 | injection touches only spec: the name, annotations, keys and other top-level values are unchanged |
| EnvProps.SpecInjectedValue | internal/hook/processor.go:539-551 | which spec values change: containers before the first template are injected, the first template or jobTemplate is entered, and values after it are untouched |
| Splitter.Itoa | internal/hook/splitter.go:124-144 | the digit loop produces the decimal text of n, with a sign for negative numbers |
| Splitter.UpdateSplitResource | internal/hook/splitter.go:57-89 | in order: rename, set the event, set the weight, drop hook-weights, and inject env vars when enabled, all on the document's root |
| Splitter.MakeReplica | internal/hook/splitter.go:11-35 | one replica: the event's weight (0 if missing) and the generated or original name |
| Splitter.SplitResource | internal/hook/splitter.go:8-38 | one replica per event, in the events' order |
| Splitter.ReplicasInOrder | internal/hook/splitter.go:8-38 | there are as many replicas as events, and replica i is made for event i |
| Splitter.ReplicaNamed | internal/hook/splitter.go:57-89 | a replica's metadata.name is the new name, and no name is created when there is none |
| Splitter.ReplicaAnnotated | internal/hook/splitter.go:57-89 | a replica has hook = its event and hook-weight = its weight, both double-quoted; hook-weights is gone when it occurred at most once; other annotations are unchanged |
| Splitter.ReplicaEnv | internal/hook/splitter.go:81-86 | enabling env only adds the env injection and leaves the name and the annotations as they are |
| Splitter.ReplicaForEvent | internal/hook/splitter.go:11-35 | the replica for an event carries that event, that event's weight and the generated name |
| Splitter.ReplicaNamesDistinct | internal/hook/splitter.go:20-23 | with suffixing on, replicas for distinct events get distinct names when no name is truncated |
| Processor.EnhanceResource | internal/hook/processor.go:381-408 | the weight, then the event, then dropping hook-weights, then env injection when enabled, on the document's root |
| Processor.InjectEnvVarsOnly | internal/hook/processor.go:203-209 | only the env vars are injected into the document's root |
| Processor.ProcessDocument | internal/hook/processor.go:67-107 | the branch structure of processDocument: pass-through, event extraction, the empty-hook error and validation |
| Processor.ProduceOutputs | internal/hook/processor.go:109-166 | the fast path, weight errors, enhancing a single event, and splitting for several events |
| Processor.CombineDocuments | internal/hook/processor.go:707-720 | the documents in order with "---\n" between them; none gives the empty text |
| Processor.Marshalled | internal/hook/processor.go:58 | one encoded text per output document, in order |
| Processor.Process | internal/hook/processor.go:38-63 | the document loop appends each document's outputs, stops at the first error, and joins the encoded outputs |
| ProcessorProps.NotHookPassesThrough | internal/hook/processor.go:79-86 | a document with neither hook nor hook-weights comes out unchanged as its only output |
| ProcessorProps.ProcessedValid | internal/hook/processor.go:88-107 | a processed hook resource has non-empty, known, distinct events and one output per event |
| ProcessorProps.ErrorsNameResource | internal/hook/processor.go:92-107 | every error of processDocument names the resource |
| ProcessorProps.ProcessedImpliesValidated | internal/hook/processor.go:67-107 | every document that processDocument accepts, with or without a hook annotation, also passes ValidateAnnotations |
| ProcessorProps.ValidationAcceptsBadWeight | internal/hook/validator.go:60-71 | ValidateAnnotations passes hook "test" with hook-weight "x", which processing rejects as an invalid weight |
| ProcessorProps.FastPathWeight | internal/hook/processor.go:109-122 | on the fast path the weight parsed inline equals the one the full resolution would give |
| ProcessorProps.FastPathOutput | internal/hook/processor.go:109-132 | the fast path keeps the annotations, name and keys; without env it is the input itself, with env it is only the injection |
| ProcessorProps.EnhancedNamed | internal/hook/processor.go:381-408 | enhancing keeps the name and the top-level keys |
| ProcessorProps.EnhancedAnnotated | internal/hook/processor.go:381-408 | after enhancing, hook = the event and hook-weight = the weight, both double-quoted; hook-weights is gone when it occurred at most once; other annotations are unchanged |
| ProcessorProps.ProcessedAllAppend | internal/hook/processor.go:42-59 | processing a concatenation is processing the first part and then the second part, unless the first part fails |
| ProcessorProps.ProcessedAllGather | internal/hook/processor.go:42-59 | the document loop is gathering each document's own result in order, stopping at the first error |
| ProcessorProps.GatherFirstError | internal/hook/processor.go:53-56 | gathering fails exactly when some result is an error, and then with the first error in order |
| ProcessorProps.ProcessedAllFirstError | internal/hook/processor.go:53-56 | the pipeline fails exactly when some document fails, and the error is that of the first failing document |
| ProcessorProps.NoHooksPassThrough | internal/hook/processor.go:79-86 | a stream without hook resources comes out as the same documents |
| ProcessorProps.CombinedAppend | internal/hook/processor.go:707-720 | joining two non-empty lists is joining each of them with one separator between |
| ProcessorProps.CombinedLength | internal/hook/processor.go:707-720 | the output length is the sum of the document lengths plus four per separator |
| ProcessorProps.CombinedAt | internal/hook/processor.go:707-720 | document i appears intact at its offset, preceded by "---\n" unless it is first |

## Left out

- YAML decoding (`yaml.Decoder`) and encoding (`marshalNode`): the pipeline takes decoded documents, and the encoder is a parameter `marshal`. Decode errors, encode errors, indentation and comments are not modelled.
- Processor.Process: Go encodes each output as soon as its document is processed. The model encodes every output after the loop, which gives the same result when encoding cannot fail.
- cloneNode copies a node by encoding and decoding it. Nodes here are values, so the copy is the node itself and the decode error path does not exist. Updates in place and aliasing between nodes are not modelled.
- SHA-256 and hex encoding (naming.go:35-37): the digest is a parameter `hash` returning 8 lower-case hex characters.
- Text.ParseInt: Go's Atoi fails on values outside 64 bits. The model has unbounded integers and no overflow error.
- Splitter.Itoa: Go's `-n` overflows for the smallest 64-bit integer. The model has unbounded integers.
- Text.TrimSpace and Text.ToLower handle ASCII only. Go also trims and folds non-ASCII Unicode.
- Naming: lengths are counted in characters. Go counts bytes, and the two agree on ASCII names.
- Tree: a mapping is assumed to have an even number of children, as the decoder produces. Go would index out of range on an odd one.
- EnvProps.HookVarsSets: stated only for env lists where no entry names both HELM_HOOK_EVENT and HELM_HOOK_WEIGHT. The decoder keeps a repeated `name` key, and on such an entry Go writes the weight over the event, so the event does not read back.
- EnvProps.ContainerSets: same restriction as EnvProps.HookVarsSets, for the same reason.
- EnvProps.EnvSetStep: same restriction. On an entry naming both variables, setting one moves the other's value, so the other is not left settled.
- EnvProps.HookVarsSettles: same restriction. It states that each variable keeps its own value, which fails on an entry naming both.
- Processor.CombineDocuments: Go returns nil for no documents; the model returns the empty text.
- Processor.ProcessDocument: parseResource's error path is left out. parseMetadata never returns an error, so the path cannot occur.
- Error messages are kinds (`Resolver.ErrorKind`) carrying the values Go prints. The wording of the messages is not modelled.
- Splitter.ReplicaNamesDistinct and Naming.GenerateNameDistinct hold only when no name is truncated. Distinct hashes would depend on SHA-256.
- Splitter.ReplicaAnnotated and ProcessorProps.EnhancedAnnotated: removal drops only the first hook-weights key, so absence is stated only when the key occurred at most once.
- The command-line entry point and file I/O outside `internal/hook` are not part of this model.
