# confman-go core, modelled in Dafny

confman stores a service's configuration in AWS Systems Manager Parameter
Store. Each key is kept as a parameter named `<service path>/<key>`.
This project models the core of the Go implementation and proves its
properties. The modelled parts are:

- the service-path parser;
- the Parameter Store adapter;
- the chamber-compatibility decorator, which folds key case;
- the `confman` orchestration (`Define`, `Copy`, `Move`, `DeleteAll` and the
  in-place case-folding helpers);
- the environment building of `confman exec`;
- the decisions of `confman deploy`.

The remote service is a value: `Ssm.Remote` holds a store of parameters (name to value, version, key id, description) plus the list of calls made so far.
- Each SSM call is a pure step on that value.
- A map from call number to API error says which calls fail.
- `Ssm.Client` is a class whose `remote` field each call replaces.
- Cancellation is an oracle. `Contexts.Context` counts how often it was asked and reports done from a fixed check on.

Each state-changing operation of the source is a method on a class:
- `ParameterStoreAdapter.ParameterStore`;
- `Chamber.ChamberCompatibility`;
- `ConfmanCore.Confman`;
- `Environment.Environ`;
- `Deploy.Terminal`.

Each method is proved equal to a specification function of the old state, named `…Run` (`ReadAllRun`, `WriteKeysRun`, `DefineRun`, `MergeRun`, `DeployRun`, …). The lemmas then state what those functions do.
- With no faults, `ReadAllRun` returns exactly the configuration stored below the path.
- `WriteKeysRun` stores every changed value and touches nothing else.
- `DefineRun` leaves no key outside the new configuration below the path.
- A prompt answer starting with `y` or `Y` decides whether stale keys are deleted.

Go's map iteration order is not fixed. Wherever the source ranges over a map, the method returns the order it used as a ghost out-parameter, with `Maps.Enumerates(order, m)`. The specification functions take that order as an argument.

Modules, one per file:
- `Wrappers`: Option and Result.
- `Strings`: the parts of Go's `strings` package the core uses, with ASCII case folding.
- `Paths`: Go's `path` package on clean paths.
- `ServicePaths`: the service-path functions. `ServicePathExamples` holds the test-table cases.
- `Ssm`: the remote service.
- `Storage`: errors and key metadata.
- `Contexts`: cancellation.
- `Maps`: Go maps.
- `CaseFolding`: case folding of whole maps, both fresh and in place.
- `ParameterStoreSpec`: the adapter's specification functions and lemmas.
- `ParameterStoreAdapter`: the adapter class.
- `Chamber`: the decorator.
- `ConfmanCore`: confman.
- `Environment`: exec.
- `Deploy`: deploy.

## Model

| member | source | states |
|---|---|---|
| ServicePaths.FormatServiceName | pkg/confman/servicepaths.go:34-41 | The result is empty, or starts with `/` and does not end with `/`. |
| ServicePaths.FormatServiceNameNormalises | pkg/confman/servicepaths.go:36-40 | `""` and `"/"` both normalise to `""`, and normalising twice is the same as once. |
| ServicePaths.FormatKeepsFormatted | pkg/confman/servicepaths.go:36-40 | An input that starts with `/` and does not end with `/` is returned unchanged. |
| ServicePaths.FormatElements | pkg/confman/servicepaths.go:34-41 | Normalising keeps the path's elements. |
| ServicePaths.FormatCanonical | pkg/confman/servicepaths.go:34-41 | A path spelt `/e1/…/en` is already normal. |
| ServicePaths.FormatJoin | pkg/confman/servicepaths.go:25 | The normalised `path.Join(dir, env)` is the canonical path of dir's elements followed by env's. |
| ServicePaths.ParseServicePaths | pkg/confman/servicepaths.go:9-15 | One path per `+`-part of each `,`-segment, segment by segment (ExpandSegmentsAppend, ParseServicePathsConcat); the number of paths is the total part count, and every path is normal. |
| ServicePaths.ParseServicePath | pkg/confman/servicepaths.go:17-30 | One service path per `+`-separated part. |
| ServicePaths.ExpandEnvironments | pkg/confman/servicepaths.go:23-27 | One service path per environment. |
| ServicePaths.ExpandEnvironmentsAt | pkg/confman/servicepaths.go:24-27 | The i-th path is the canonical path of the directory's elements followed by the i-th environment's. |
| ServicePaths.SplitFormatted | pkg/confman/servicepaths.go:21 | `path.Split` of the normalised first part gives a directory holding all elements but the last, and a file holding the last. |
| ServicePaths.SplitFormattedJoins | pkg/confman/servicepaths.go:21 | The directory's and the file's elements together are the first part's elements. |
| ServicePaths.FirstEnvironment | pkg/confman/servicepaths.go:21-27 | The first path of a segment is its first part, normalised. |
| ServicePaths.SiblingEnvironment | pkg/confman/servicepaths.go:23-27 | Every later environment is placed in the first part's parent directory. |
| ServicePaths.ParseServicePathSibling | pkg/confman/servicepaths.go:17-30 | Part i ≥ 1 of a segment gives the first part's parent directory joined with part i. |
| ServicePaths.ParseServicePathMeaning | pkg/confman/servicepaths.go:17-30 | Path 0 is the canonical first part, and every later path shares the first part's directory. |
| ServicePaths.ParsedPathsFormatted | pkg/confman/servicepaths.go:9-15 | Every parsed path is a fixed point of FormatServiceName. |
| ServicePaths.ExpandedFormatted | pkg/confman/servicepaths.go:11-13 | Every path expanded from any list of segments is a fixed point of FormatServiceName. |
| ServicePaths.ExpandSegmentsAppend | pkg/confman/servicepaths.go:11-13 | Expansion distributes over concatenation of segment lists, which keeps segment order. |
| ServicePaths.ExpandSegmentsCount | pkg/confman/servicepaths.go:9-15 | The output length is the sum over the segments of their `+`-part counts. |
| ServicePaths.ParseServicePathsConcat | pkg/confman/servicepaths.go:9-15 | Parsing `a,b` gives a's paths followed by b's, and the length is the sum of both part counts. |
| ServicePathExamples.SingleSegment | pkg/confman/servicepaths_test.go:17-20 | A segment without `,` or `+` gives the single canonical path of its elements. |
| ServicePathExamples.PairSegment | pkg/confman/servicepaths_test.go:21-24 | `x/y+z` gives `/x/y` and `/x/z`. |
| ServicePathExamples.RootedPair | pkg/confman/servicepaths_test.go:21-24 | `/s/d+p` gives `/s/d` and `/s/p`. |
| ServicePathExamples.SlashedPair | pkg/confman/servicepaths_test.go:33-36 | `/s/d/+p/` gives `/s/d` and `/s/p`. |
| ServicePathExamples.UnrootedPair | pkg/confman/servicepaths_test.go:33-36 | `s/a+f` gives `/s/a` and `/s/f`. |
| ServicePathExamples.BareName | pkg/confman/servicepaths_test.go:33-36 | A bare name `n` gives `/n`. |
| ServicePathExamples.RootedSlashedName | pkg/confman/servicepaths_test.go:25-28 | `/h/` gives `/h`. |
| ServicePathExamples.Segments | pkg/confman/servicepaths.go:11-13 | Parsing `x,y` gives x's paths followed by y's. |
| ServicePathExamples.PairExample | pkg/confman/servicepaths_test.go:21-24 | `"/service/dev+prod"` gives exactly `/service/dev` and `/service/prod`. |
| ServicePathExamples.TwoSegmentExample | pkg/confman/servicepaths_test.go:25-28 | `"/service/dev+prod,/service2/"` gives exactly `/service/dev`, `/service/prod` and `/service2`. |
| ServicePathExamples.FuzzyServicePathsExample | pkg/confman/servicepaths_test.go:33-36 | `"/service/dev/+prod/,service2/abc+def,haps"` gives exactly `/service/dev`, `/service/prod`, `/service2/abc`, `/service2/def` and `/haps`, in that order. |
| Strings.TrimPrefix | internal/cli/deploy.go:122 | With the prefix present, prefix + result is the input. Otherwise the input is returned. |
| Strings.TrimRight | pkg/confman/servicepaths.go:40 | The result is a prefix of the input and does not end with the trimmed character. |
| Strings.TrimRightRemovesOnly | pkg/confman/servicepaths.go:40 | Everything trimmed was that character. |
| Strings.Split | pkg/confman/servicepaths.go:11 | At least one part, and no part contains the separator. |
| Strings.SplitThenJoin | pkg/confman/servicepaths.go:11 | Joining the parts with the separator gives the input back. |
| Strings.JoinThenSplit | pkg/confman/servicepaths.go:18 | Splitting separator-free parts joined by the separator gives the parts back. |
| Strings.SplitAround | pkg/confman/servicepaths.go:11 | Splitting `a + sep + b` gives a's parts followed by b's. |
| Strings.SplitWithoutSeparator | pkg/confman/servicepaths.go:18 | A string without the separator splits into itself alone. |
| Strings.FoldingForgetsCase | pkg/storage/chamber_compatibility.go:91-101 | Lower- and upper-casing are idempotent, and each undoes the other's case. |
| Paths.Ext | internal/cli/deploy.go:123 | The extension is a suffix that is empty or starts with its only `.` and has no `/`. When empty, the last element has no `.`. |
| Paths.JoinElements | pkg/storage/parameterstore/parameterstore.go:385-387 | The elements of `Join(a, b)` are a's followed by b's. |
| Paths.JoinServicePath | pkg/storage/parameterstore/parameterstore.go:385-387 | For a service path and a one-element key, `Join` is `sp + "/" + key`. |
| Paths.JoinEmptyKey | pkg/storage/parameterstore/parameterstore.go:385-387 | Joining an empty key gives the service path itself. |
| Paths.JoinedKeyIsChild | pkg/storage/parameterstore/parameterstore.go:385-395 | A key's parameter name is a direct child of the service path whose base name is the key, so `parameterBaseName` undoes `parameterPath`. |
| Paths.ChildJoin | pkg/storage/parameterstore/parameterstore.go:385-395 | A direct child is the join of the service path and the child's base name, so `parameterPath` undoes `parameterBaseName`. |
| Paths.JoinedKeysDistinct | pkg/storage/parameterstore/parameterstore.go:385-387 | Different keys give different parameter names, in both directions. |
| Paths.ChildBaseInjective | pkg/storage/parameterstore/parameterstore.go:393-395 | Two children of one path with the same base name are the same. |
| Ssm.Found | pkg/storage/parameterstore/parameterstore.go:180-183 | Every pair GetParameters returns is a stored name with its stored value, and there are no more pairs than names asked. |
| Ssm.Missing | pkg/storage/parameterstore/parameterstore.go:195-198 | The invalid names are unstored names, and the list is empty iff every name asked is stored. |
| Ssm.Children | pkg/storage/parameterstore/parameterstore.go:217-224 | The non-recursive listing holds only direct children of the path. |
| Ssm.ChildrenExact | pkg/storage/parameterstore/parameterstore.go:217-224 | A name is listed iff it is stored and a direct child of the path. |
| Ssm.PageOf | pkg/storage/parameterstore/parameterstore.go:226-242 | A page's next token is the following page's number. |
| Ssm.ListedSteps | pkg/storage/parameterstore/parameterstore.go:70-79 | Puts and deletes keep the store's listing consistent with its parameters. |
| Ssm.DeleteDelete | pkg/storage/parameterstore/parameterstore.go:339-344 | Deleting names in two calls equals deleting all of them at once. |
| Ssm.Client.PutParameter | pkg/storage/parameterstore/parameterstore.go:70-79 | The call is one put step on the remote. |
| Ssm.Client.GetParameters | pkg/storage/parameterstore/parameterstore.go:180-183 | The call is one get step on the remote. |
| Ssm.Client.GetParametersByPath | pkg/storage/parameterstore/parameterstore.go:217-227 | The call is one page of the by-path listing. |
| Ssm.Client.DescribeParameters | pkg/storage/parameterstore/parameterstore.go:284-295 | The call is one page of the describe listing. |
| Ssm.Client.DeleteParameters | pkg/storage/parameterstore/parameterstore.go:361-363 | The call is one delete step on the remote. |
| Storage.FromRemote | pkg/storage/parameterstore/parameterstore.go:184-192 | A service error keeps its cause, and counts as ErrConfigNotFound iff its code is `ParameterNotFound`. |
| Contexts.Context.Done | pkg/storage/parameterstore/parameterstore.go:105-109 | Each check is counted, and the context is done from the cancellation point on. |
| Maps.Lookup | pkg/storage/parameterstore/parameterstore.go:99 | A missing key reads as `""`. |
| Maps.Keys | pkg/confman/confman.go:179 | The keys of a map, each exactly once, in some order. |
| Maps.Outside | pkg/confman/confman.go:179-185 | Only listed keys absent from the map are kept. |
| Maps.OutsideOf | pkg/confman/confman.go:179-185 | For a list without repeats, the kept keys have no repeats and include every listed key absent from the map. |
| Maps.OutsideExactly | pkg/confman/confman.go:179-185 | For an enumeration of the current keys: kept iff current and absent from the new config, without repeats. |
| Maps.OutsideAll | internal/cli/deploy.go:92-102 | When every listed key is in the map, nothing is kept. |
| ParameterStoreSpec.KmsKeyId | pkg/storage/parameterstore/parameterstore.go:44-47 | The key id starts with `alias/` and ends with the given alias. |
| ParameterStoreSpec.KmsKeyIdIdempotent | pkg/storage/parameterstore/parameterstore.go:45-47 | An alias that already has the prefix is kept as it is. |
| ParameterStoreSpec.MetadataKeys | pkg/storage/parameterstore/parameterstore.go:433-439 | Three distinct names, each one of the metadata fields a key record carries. |
| ParameterStoreSpec.ParameterNames | pkg/storage/parameterstore/parameterstore.go:415-423 | One parameter name per key. |
| ParameterStoreSpec.Chunks | pkg/storage/parameterstore/parameterstore.go:397-413 | The batching `batchKeys` is evidently meant to do, the corrected half of the `batchKeys` finding: at least one batch, every batch at most `size` keys, and no empty batch for a non-empty key list. |
| ParameterStoreSpec.ChunksCover | pkg/storage/parameterstore/parameterstore.go:397-413 | The intended batches concatenate to the keys, in order. |
| ParameterStoreSpec.BatchKeysAsWritten | pkg/storage/parameterstore/parameterstore.go:397-413 | batchKeys as written stays in range iff there are fewer keys than one batch holds, and then gives the keys as one batch; this is `BatchKeys`. |
| ParameterStoreSpec.BatchKeys | pkg/storage/parameterstore/parameterstore.go:397-413 | When batchKeys returns rather than panics, its batches concatenate to the keys and hold at most `size` keys each. |
| ParameterStoreSpec.ManyKeysPanic | pkg/storage/parameterstore/parameterstore.go:134-154 | From ten keys on, ReadKeys and DeleteKeys stop in the panic of batchKeys before any call, and so does WriteKeys, which reads its keys first. |
| ParameterStoreSpec.ChunkedReadValues | pkg/storage/parameterstore/parameterstore.go:397-413 | With the intended batches, reading keys that are all stored returns every key with its value, however many keys there are. |
| ParameterStoreSpec.ChunkedDeleteAll | pkg/storage/parameterstore/parameterstore.go:397-413 | With the intended batches and no faults, deletion succeeds and removes every named parameter, however many keys there are. |
| ParameterStoreSpec.BatchKeysReadsPastEnd | pkg/storage/parameterstore/parameterstore.go:404-407 | With at least `size` keys, the last batch's last index is at or past the end. |
| ParameterStoreSpec.NoCallWithoutWork | pkg/storage/parameterstore/parameterstore.go:84-87 | With no keys, ReadKeys, DeleteKeys and WriteKeys make no call. A batch of more than ten keys fails with TooManyKeys, also without a call. |
| ParameterStoreSpec.BatchReadFound | pkg/storage/parameterstore/parameterstore.go:171-208 | When every name is stored, readKeys makes one GetParameters call and returns the values by base name. |
| ParameterStoreSpec.BatchReadMissing | pkg/storage/parameterstore/parameterstore.go:195-198 | One unstored key fails the whole batch with ErrConfigNotFound. |
| ParameterStoreSpec.ReadBatchesFound | pkg/storage/parameterstore/parameterstore.go:140-152 | The batch results merged are the base-name map of all keys' values. |
| ParameterStoreSpec.ReadBatchesMissing | pkg/storage/parameterstore/parameterstore.go:142-146 | One unstored key in any batch discards everything and gives ErrConfigNotFound. |
| ParameterStoreSpec.ReadBatchesKeepStore | pkg/storage/parameterstore/parameterstore.go:134-154 | Reading never changes the store, and only adds to the call log. |
| ParameterStoreSpec.BaseMapOfKeys | pkg/storage/parameterstore/parameterstore.go:200-203 | The base-name map of the found parameters is each stored key's value. |
| ParameterStoreSpec.ReadKeysValues | pkg/storage/parameterstore/parameterstore.go:134-154 | For fewer than ten keys, all stored, ReadKeys returns every key with its stored value. |
| ParameterStoreSpec.ReadKeysMissing | pkg/storage/parameterstore/parameterstore.go:134-154 | With no faults and fewer than ten keys, ReadKeys fails with ErrConfigNotFound iff some key is not stored, and otherwise returns the keys' values. |
| ParameterStoreSpec.ReadKeepsStore | pkg/storage/parameterstore/parameterstore.go:122-154 | ReadKeys and Read leave the store alone, and Read makes the calls of a one-key ReadKeys. |
| ParameterStoreSpec.ReadKeysOne | pkg/storage/parameterstore/parameterstore.go:122-129 | ReadKeys of one key is a single readKeys batch. |
| ParameterStoreSpec.ReadOne | pkg/storage/parameterstore/parameterstore.go:122-129 | Read gives the stored value, or ErrConfigNotFound for a missing key, in one GetParameters call. |
| ParameterStoreSpec.PageStep | pkg/storage/parameterstore/parameterstore.go:226-242 | ReadAll takes the next slice of ten listed entries per call, and goes on while a next token remains. |
| ParameterStoreSpec.ReadPagesKeepStore | pkg/storage/parameterstore/parameterstore.go:226-242 | Paging never changes the store, and each page is one more call. |
| ParameterStoreSpec.ReadPagesAll | pkg/storage/parameterstore/parameterstore.go:226-242 | With no faults, paging from page p returns the base-name map of the listing from entry 10·p on. |
| ParameterStoreSpec.ChildrenKeys | pkg/storage/parameterstore/parameterstore.go:238-241 | The base names of listed children are elements, and name those children again. |
| ParameterStoreSpec.ListedKeysStored | pkg/storage/parameterstore/parameterstore.go:238-241 | Every key ReadAll lists is a stored key of the path. |
| ParameterStoreSpec.StoredKeysListed | pkg/storage/parameterstore/parameterstore.go:238-241 | Every stored key of the path is listed. |
| ParameterStoreSpec.ListingKeys | pkg/storage/parameterstore/parameterstore.go:238-241 | The listed keys are exactly the stored keys of the path. |
| ParameterStoreSpec.ListingConfig | pkg/storage/parameterstore/parameterstore.go:238-241 | The base-name map of the listing is the path's stored configuration. |
| ParameterStoreSpec.ReadAllConfig | pkg/storage/parameterstore/parameterstore.go:210-245 | With no faults, ReadAll returns exactly the configuration stored below the path. The store is unchanged and calls were made. |
| ParameterStoreSpec.Changed | pkg/storage/parameterstore/parameterstore.go:97-102 | Exactly the keys whose new value differs from the value read back are kept, a missing key reading as `""`, each with its new value. |
| ParameterStoreSpec.WriteReadError | pkg/storage/parameterstore/parameterstore.go:61-64 | A read error other than ErrConfigNotFound is returned, and nothing is put. |
| ParameterStoreSpec.WriteOne | pkg/storage/parameterstore/parameterstore.go:60-81 | With no faults, Write succeeds and the key then holds the value. No other parameter changes, and an equal current value means no put at all. |
| ParameterStoreSpec.WriteEmptyToMissing | pkg/storage/parameterstore/parameterstore.go:66-68 | Writing `""` to a missing key leaves the store unchanged. |
| ParameterStoreSpec.WriteEachAll | pkg/storage/parameterstore/parameterstore.go:104-115 | Without faults or cancellation, every key with a new value holds it, and no other parameter changes. |
| ParameterStoreSpec.WriteEachSkips | pkg/storage/parameterstore/parameterstore.go:104-115 | A loop with no new values makes no call and no check. |
| ParameterStoreSpec.WriteEachCanceled | pkg/storage/parameterstore/parameterstore.go:105-109 | A context that is already done stops the loop with Canceled before its first write. |
| ParameterStoreSpec.WriteKeysRead | pkg/storage/parameterstore/parameterstore.go:92-95 | For fewer than ten keys, WriteKeys' read fails only with ErrConfigNotFound, which is tolerated, and leaves the store alone. The current values are then none, or every stored key's value, and never none when every key is stored. |
| ParameterStoreSpec.WriteKeysAll | pkg/storage/parameterstore/parameterstore.go:83-120 | Without faults or cancellation and with fewer than ten keys, WriteKeys succeeds and every key holds its value, except that `""` may leave a key's parameter as it was. When every key was already stored, every key holds its value. No parameter outside the keys changes. |
| ParameterStoreSpec.DeleteBatchesAll | pkg/storage/parameterstore/parameterstore.go:339-344 | Without faults, the batches succeed and delete all their names, known or not. |
| ParameterStoreSpec.DeleteKeysAll | pkg/storage/parameterstore/parameterstore.go:331-347 | Without faults and with fewer than ten keys, DeleteKeys succeeds even for unknown names, and the store loses exactly those names. |
| ParameterStoreSpec.DeleteMeaning | pkg/storage/parameterstore/parameterstore.go:349-383 | After deleting, each key is gone, and every other parameter is as before. |
| ParameterStoreSpec.DescribePageStep | pkg/storage/parameterstore/parameterstore.go:294-321 | Describing takes the next page of the children's metadata per call, and goes on while a next token remains. |
| ParameterStoreSpec.DescribePagesAll | pkg/storage/parameterstore/parameterstore.go:294-321 | With no faults, describing returns all remaining children's metadata and leaves the store alone. |
| ParameterStoreSpec.DescribeAll | pkg/storage/parameterstore/parameterstore.go:307-320 | Each described name carries its parameter's version, key id and description. |
| ParameterStoreSpec.ConfigOfChild | pkg/storage/parameterstore/parameterstore.go:312 | Looking up a child's base name in ReadAll's configuration gives that child's value. |
| ParameterStoreSpec.ReadAllMetadataAll | pkg/storage/parameterstore/parameterstore.go:272-324 | With no faults there is one record per child, in listing order. Each has the child's base name as key, its stored value and its version. |
| ParameterStoreAdapter.AddByBaseName | pkg/storage/parameterstore/parameterstore.go:200-203 | The loop adds each found pair under its base name, later pairs winning. |
| ParameterStoreAdapter.NewValues | pkg/storage/parameterstore/parameterstore.go:97-102 | The loop keeps exactly the changed entries. |
| ParameterStoreAdapter.ParameterStore.constructor | pkg/storage/parameterstore/parameterstore.go:44-58 | The store keeps the client, and the alias with the `alias/` prefix ensured. |
| ParameterStoreAdapter.ParameterStore.ReadBatch | pkg/storage/parameterstore/parameterstore.go:171-208 | readKeys' result and calls are those of its specification. |
| ParameterStoreAdapter.ParameterStore.ReadKeys | pkg/storage/parameterstore/parameterstore.go:134-154 | ReadKeys' result and calls are those of its specification: batchKeys as written, its panic as the error `IndexOutOfRange`, then one readKeys per batch. |
| ParameterStoreAdapter.ParameterStore.Read | pkg/storage/parameterstore/parameterstore.go:122-129 | Read's result and calls are those of its specification. |
| ParameterStoreAdapter.ParameterStore.ReadAll | pkg/storage/parameterstore/parameterstore.go:210-245 | ReadAll's result and calls are those of its specification. |
| ParameterStoreAdapter.ParameterStore.Write | pkg/storage/parameterstore/parameterstore.go:60-81 | Write's result and calls are those of its specification, with the stored key id. |
| ParameterStoreAdapter.ParameterStore.WriteKeys | pkg/storage/parameterstore/parameterstore.go:83-120 | WriteKeys' result, calls and context checks are those of its specification, for the map orders used, including the panic of its read from ten keys on. |
| ParameterStoreAdapter.ParameterStore.WriteChanged | pkg/storage/parameterstore/parameterstore.go:104-115 | The write loop's result, calls and checks are those of its specification. |
| ParameterStoreAdapter.ParameterStore.DeleteBatch | pkg/storage/parameterstore/parameterstore.go:349-383 | deleteKeys' result and calls are those of its specification. |
| ParameterStoreAdapter.ParameterStore.DeleteKeys | pkg/storage/parameterstore/parameterstore.go:331-347 | DeleteKeys' result and calls are those of its specification: batchKeys as written, its panic as the error `IndexOutOfRange`, then one deleteKeys per batch. |
| ParameterStoreAdapter.ParameterStore.Delete | pkg/storage/parameterstore/parameterstore.go:326-329 | Delete is a one-key deleteKeys. |
| ParameterStoreAdapter.MetadataRecords | pkg/storage/parameterstore/parameterstore.go:306-318 | One record per described parameter, in order: its base name, the value ReadAll gave that name (`""` when absent) and its metadata. |
| ParameterStoreAdapter.ParameterStore.ReadAllMetadata | pkg/storage/parameterstore/parameterstore.go:247-259 | ReadAllMetadata's result and calls are those of its specification. |
| ParameterStoreAdapter.ParameterStore.DescribeAllPages | pkg/storage/parameterstore/parameterstore.go:284-321 | The describe loop's result and calls are those of its specification. |
| Chamber.KeysToLower | pkg/storage/chamber_compatibility.go:121-128 | A new list of the same length whose i-th key is the lower-cased i-th input key. |
| Chamber.FoldConfig | pkg/storage/chamber_compatibility.go:130-146 | A new map, each input key folded in some order of the input keys, whose properties are CaseFolding.RefoldMeaning. |
| Chamber.KeyMetaToUpper | pkg/storage/chamber_compatibility.go:103-119 | A new list of the same length and order in which only the key is upper-cased. Colliding keys are all kept. |
| Chamber.ChamberCompatibility.constructor | pkg/storage/chamber_compatibility.go:18-25 | The decorator wraps the given store. |
| Chamber.ChamberCompatibility.Write | pkg/storage/chamber_compatibility.go:27-32 | Write on the wrapped store with the key lower-cased and all else unchanged. |
| Chamber.ChamberCompatibility.WriteKeys | pkg/storage/chamber_compatibility.go:34-39 | WriteKeys on the wrapped store with the lower-cased map. |
| Chamber.ChamberCompatibility.Read | pkg/storage/chamber_compatibility.go:41-46 | Read on the wrapped store with the key lower-cased. |
| Chamber.ChamberCompatibility.ReadKeys | pkg/storage/chamber_compatibility.go:48-53 | ReadKeys with lower-cased keys, the wrapped result returned unchanged. |
| Chamber.ChamberCompatibility.ReadAll | pkg/storage/chamber_compatibility.go:55-60 | The wrapped result with every key upper-cased, returned even beside an error, where the map is empty. |
| Chamber.ChamberCompatibility.ReadAllMetadata | pkg/storage/chamber_compatibility.go:62-67 | The wrapped records with upper-cased keys, returned beside any error. |
| Chamber.ChamberCompatibility.Delete | pkg/storage/chamber_compatibility.go:69-74 | Delete on the wrapped store with the key lower-cased. |
| Chamber.ChamberCompatibility.DeleteKeys | pkg/storage/chamber_compatibility.go:76-81 | DeleteKeys on the wrapped store with every key lower-cased. |
| Chamber.WrittenKeysLowerCase | pkg/storage/chamber_compatibility.go:34-39 | Every key the decorator hands to WriteKeys is lower-case. |
| Chamber.ReadAllUpperCase | pkg/storage/chamber_compatibility.go:55-60 | Every key ReadAll returns is upper-case, and an empty read stays empty. |
| CaseFolding.FoldIdempotent | pkg/storage/chamber_compatibility.go:91-101 | Folding a key twice is folding it once. |
| CaseFolding.ImageSize | pkg/storage/chamber_compatibility.go:130-146 | Folding a key set never makes it larger. |
| CaseFolding.RefoldKeys | pkg/storage/chamber_compatibility.go:130-146 | The fresh map's keys are the folded keys, and each value comes from an input key folding to it. |
| CaseFolding.RefoldLastWins | pkg/storage/chamber_compatibility.go:130-137 | Among colliding keys, the one visited last gives the value. |
| CaseFolding.RefoldMeaning | pkg/storage/chamber_compatibility.go:130-146 | Key set = folded image of the input keys, each value from a key folding to it, size not larger. Without collisions every value is kept. |
| CaseFolding.RefoldFolded | pkg/storage/chamber_compatibility.go:130-146 | Every key of the fresh map is already folded. |
| CaseFolding.RefoldInPlaceKeys | pkg/confman/confman.go:271-281 | After the in-place loop, unvisited keys stay and visited keys are replaced by their folded forms. |
| CaseFolding.RefoldInPlaceValues | pkg/confman/confman.go:271-293 | Every value left in the map came from a key with the same fold. |
| CaseFolding.RefoldInPlaceExact | pkg/confman/confman.go:271-293 | Without collisions, each visited key's value sits under its fold and unvisited keys keep theirs. |
| CaseFolding.RefoldInPlaceMeaning | pkg/confman/confman.go:271-293 | The rewritten map's key set is the folded image of the original keys, each value from a key folding to it, size not larger. Without collisions every value is kept. |
| CaseFolding.FoldsAgree | pkg/confman/confman.go:271-281 | Without collisions, the in-place rewrite and the decorator's fresh map agree. |
| CaseFolding.InPlaceCollision | pkg/confman/confman.go:271-281 | With colliding keys they can differ: `{"A":"1","a":"2"}` visited as A, a becomes `{"a":"2"}` fresh but `{"a":"1"}` in place. |
| ConfmanCore.ChamberKey | pkg/confman/confman.go:239-251 | The identity with compatibility off. With it on, a folded key with the same fold as the input. |
| ConfmanCore.ChamberedMeaning | pkg/confman/confman.go:271-293 | With compatibility off the map is untouched. With it on, its keys are the folded image, each value from a key folding to it. |
| ConfmanCore.KeysToDelete | pkg/confman/confman.go:179-185 | The keys to delete are the current keys absent from the new config, in current order. |
| ConfmanCore.MoveKeysAsWritten | pkg/confman/confman.go:122-125 | The key list as written has 2·n entries, the first n of them `""`, then every key. |
| ConfmanCore.MoveAsWrittenDeletesServicePath | pkg/confman/confman.go:122-127 | With anything moved, that list names the service path itself, and the delete removes a parameter of that name. |
| ConfmanCore.MoveAsWrittenPanics | pkg/confman/confman.go:122-127 | From five moved keys, the list as written has at least ten entries; deleting it ends in IndexOutOfRange (the batchKeys panic) with the source remote unchanged. |
| ConfmanCore.MoveKeepsServicePath | pkg/confman/confman.go:113-128 | The corrected list never names the service path, and the parameter of that name survives. |
| ConfmanCore.DeleteAllEmpties | pkg/confman/confman.go:209-221 | Without faults and with fewer than ten keys stored, DeleteAll succeeds, no key is left below the path, and nothing outside it changes. |
| ConfmanCore.DefineDeletes | pkg/confman/confman.go:179-196 | Deleting the stale keys after the write leaves no key outside the new config and keeps the written ones. Nothing outside the path changes. |
| ConfmanCore.DefineAll | pkg/confman/confman.go:168-197 | Without faults or cancellation, with fewer than ten keys to write and fewer than ten stale keys, Define succeeds and no key outside the new config remains below the path. Each config key holds its new value, or, for `""`, keeps its old parameter (possibly missing), and nothing outside the path changes. |
| ConfmanCore.CopyAll | pkg/confman/confman.go:135-166 | Without faults or cancellation and with fewer than ten keys to write, copy returns the source's stored configuration, lower-cased when the target is compatible. Each key then holds its value, or keeps its old parameter for `""`. Nothing outside the target path changes, and a separate source store is unchanged. |
| ConfmanCore.MoveAll | pkg/confman/confman.go:113-128 | Corrected Move (see ## Findings): under CopyAll's conditions, Move succeeds and the target is what copy left. The source becomes the store copy left without the parameters named by the copied map's keys; under a compatible target those are lower-cased, so a source key with an upper-case letter keeps its parameter. |
| ConfmanCore.MoveCopyFailed | pkg/confman/confman.go:113-121 | When copy fails, Move returns its error and deletes nothing; with two clients the source store is as it was. |
| ConfmanCore.Confman.constructor | pkg/confman/confman.go:55-62 | The service name is stored normalised. |
| ConfmanCore.Confman.FormatKeyPath | pkg/confman/confman.go:227-229 | For a one-element key, the key path is a direct child of the service name whose base name is the key. |
| ConfmanCore.Confman.KeysToLower | pkg/confman/confman.go:261-269 | The caller's array is overwritten in place with the chamber keys. |
| ConfmanCore.Confman.KeyMetaToUpper | pkg/confman/confman.go:253-259 | The caller's records are overwritten in place, only the key changing. |
| ConfmanCore.Confman.FoldConfig | pkg/confman/confman.go:271-293 | The caller's map is rewritten in place by the in-place folding in some key order, or left alone with compatibility off. |
| ConfmanCore.Confman.Add | pkg/confman/confman.go:64-68 | Write under the service name with the chamber key. |
| ConfmanCore.Confman.AddKeys | pkg/confman/confman.go:70-74 | The caller's map is folded in place, then written with WriteKeys. |
| ConfmanCore.Confman.Read | pkg/confman/confman.go:76-79 | Read under the service name with the chamber key. |
| ConfmanCore.Confman.ReadKeys | pkg/confman/confman.go:81-91 | The caller's keys are folded in place and read. An error is returned alone; otherwise the result is folded to upper case. |
| ConfmanCore.Confman.ReadAll | pkg/confman/confman.go:93-101 | ReadAll under the service name. An error is returned alone; otherwise the result is folded to upper case. |
| ConfmanCore.Confman.ReadAllMetadata | pkg/confman/confman.go:103-111 | ReadAllMetadata; on success, the same records with chamber-upper-cased keys. |
| ConfmanCore.Confman.CopyInto | pkg/confman/confman.go:154-165 | copy's target side: a cancellation check, then AddKeys of the map read, which the target folds in place and copy returns. |
| ConfmanCore.Confman.Copy | pkg/confman/confman.go:130-166 | copy's result, both remotes and the checks are those of its specification, whose properties are CopyAll. |
| ConfmanCore.Confman.Move | pkg/confman/confman.go:113-128 | Corrected Move (see ## Findings): Move is copy followed, only on success, by deleting from the source the keys of the map copy returned, each once, in some order of that map. Its properties are MoveAll and MoveCopyFailed. |
| ConfmanCore.Confman.Define | pkg/confman/confman.go:168-197 | Fold the caller's map in place, read, write, then delete the stale keys, as its specification states. Its properties are DefineAll. |
| ConfmanCore.Confman.Delete | pkg/confman/confman.go:199-202 | Delete under the service name with the chamber key. |
| ConfmanCore.Confman.DeleteKeys | pkg/confman/confman.go:204-207 | The caller's keys are folded in place, then deleted. |
| ConfmanCore.Confman.DeleteAll | pkg/confman/confman.go:209-221 | Read, then delete exactly the keys read. Its properties are DeleteAllEmpties. |
| Environment.FirstMatchFrom | internal/cli/exec.go:101-108 | The first entry from a position on that starts with `key=`, or none. |
| Environment.Environ.Contains | internal/cli/exec.go:111-118 | True iff some entry starts with `key=`. |
| Environment.Environ.Unset | internal/cli/exec.go:101-109 | The entries become the swap-removal of the first match. |
| Environment.Environ.Set | internal/cli/exec.go:121-126 | Returns whether the key was present beforehand, and the entries become the unset list plus `key=value`. |
| Environment.SwapRemove | internal/cli/exec.go:104-105 | Swap-removal loses exactly the removed entry from the multiset. |
| Environment.UnsetMeaning | internal/cli/exec.go:101-109 | The length drops by one iff the key was present. Then the result is the old multiset minus the first matching entry; otherwise nothing changes. |
| Environment.UnsetClearsUnique | internal/cli/exec.go:101-109 | When at most one entry matches, after Unset none does. |
| Environment.SetMeaning | internal/cli/exec.go:121-126 | The last entry is `key=value`, and the length grows by one unless the key was present. |
| Environment.SettingKeeps | internal/cli/exec.go:121-126 | Entries for other keys survive Set. |
| Environment.SetAllHolds | internal/cli/exec.go:87-92 | After the set loop, every config key's `key=value` entry is present. |
| Environment.SetAllKeeps | internal/cli/exec.go:87-92 | Entries of variables outside the config survive the set loop. |
| Environment.UnsetAllClears | internal/cli/exec.go:69-85 | When each listed variable occurs at most once, none of them is left. |
| Environment.CopyEntries | internal/cli/exec.go:62-64 | The merged map has both key sets, and the current path's values win. |
| Environment.MergedLastWins | internal/cli/exec.go:55-65 | When several paths define a key, the last one's value is merged. |
| Environment.MergedKeys | internal/cli/exec.go:55-65 | A key is merged iff some path defines it. |
| Environment.MergeAll | internal/cli/exec.go:53-65 | Without faults, merging returns the merge of every path's stored configuration, folded to upper case when compatible, and leaves the store alone. |
| Environment.MergeOne | internal/cli/exec.go:56-64 | One path: a new confman, ReadAll, then its entries copied over the merged map. |
| Environment.MergeServicePaths | internal/cli/exec.go:53-65 | The merge loop's result and calls are those of its specification, stopping at the first read error. |
| Environment.StripAwsVariables | internal/cli/exec.go:69-85 | Unset each of the eight AWS variables once, in order. |
| Environment.SetConfig | internal/cli/exec.go:87-92 | Set every config entry, in some order of the config keys. |
| Environment.ExecEnvironment | internal/cli/exec.go:52-92 | The environment is built iff every ReadAll succeeded, and is untouched otherwise. When built, it is the old one, stripped unless credentials are kept, with the merged config set. |
| Deploy.FilePathToServicePath | internal/cli/deploy.go:121-125 | Defined iff the trimmed path is at least as long as the extension, and then the result plus the extension is the trimmed path. |
| Deploy.FilePathBelowBase | internal/cli/deploy.go:121-125 | For a file below the base with room for the extension, base + result + extension is the file path. |
| Deploy.BaseIsFilePath | internal/cli/deploy.go:122-124 | A base equal to a file path with an extension makes the slice out of range. |
| Deploy.FilePathExample | internal/cli/deploy.go:121-125 | `/conf/service/dev.yaml` below `/conf` is `/service/dev`. |
| Deploy.Terminal.ReadAnswer | internal/cli/deploy.go:106-110 | The next scanned answer is consumed, or none when the input has run out or fails. |
| Deploy.HandleDefine | internal/cli/deploy.go:86-119 | handleDefine's result, calls and consumed input are those of its specification. The deletion list enumerates the keys read. |
| Deploy.NothingToDelete | internal/cli/deploy.go:100-102 | When the new config has every existing key, it succeeds after the read, without prompting or deleting. |
| Deploy.PromptDecides | internal/cli/deploy.go:104-118 | With a key to delete, one answer is consumed. An answer whose lower case starts with `y` deletes the stale keys; any other answer gives ErrUserAbortedKeyDeletion, and a failed scan its error, both deleting nothing. |
| Deploy.AssumeYesDeletes | internal/cli/deploy.go:104-118 | With assumeYes, no input is consumed and the stale keys are deleted. |
| Deploy.HandleDefineAccepted | internal/cli/deploy.go:86-119 | Without faults, once accepted and with fewer than ten stale keys (compatibility off), no key outside the new config remains below the path. The kept keys' parameters and everything outside the path are unchanged. |
| Deploy.HandleDefineDeletes | internal/cli/deploy.go:86-119 | Without faults, once accepted and with fewer than ten stale keys, handleDefine succeeds. The store it leaves is the old one without the parameters of the stale keys read, lower-cased when compatibility is on. |
| Deploy.HandleDefineRefused | internal/cli/deploy.go:112-115 | A refused or failed prompt leaves the store unchanged. |
| Deploy.DeployRound | internal/cli/deploy.go:63-79 | One service config: convert its file path (an out-of-range slice is `IndexOutOfRange`), define if asked, then WriteKeys, as the step specification states. |
| Deploy.WriteConfig | internal/cli/deploy.go:76 | The round's write is WriteKeys' specification on the service config, folded first when compatibility is on. |
| Deploy.DeployOne | internal/cli/deploy.go:67-80 | After loop iteration i, result, calls, checks and input are those of the loop's specification run over the first i + 1 configs. |
| Deploy.DeployCommand | internal/cli/deploy.go:62-80 | The loop's result, calls, checks and input are those of its specification, stopping at the first error; a file path whose conversion slices out of range stops it with the panic, as `IndexOutOfRange`. |
| Deploy.DeployStopsAtFirstError | internal/cli/deploy.go:62-80 | Once a service config fails, later configs change nothing. |
| Deploy.DefineBeforeWrite | internal/cli/deploy.go:66-79 | With define on, a failing define is returned without writing; otherwise the write runs on the remote the define left. |

## Left out

- The AWS SDK is replaced by the `Ssm` model.
  - Errors carry only their code.
  - Paginator tokens are page numbers.
  - By-path pages hold ten parameters; describe pages hold a client-chosen size.
  - Which calls fail is a map from call number to error.
  - The parameter type (always SecureString) and the overwrite flag (always true) of a put are not recorded.
- Logging, `String`, `SetLogger` and the printed prompt and "Updating" lines are not modelled.
- `keyMetadataToKeyMetadata` (parameterstore.go:156-169) formats times and integers into strings.
  - Records keep the parameter's metadata record (name, version, key id, description) instead.
  - The last-modified date and user, the type and the tier are not modelled.
- `MetadataKeys` of the decorator (chamber_compatibility.go:83-85) and of confman (confman.go:231-233) only delegate, and are not modelled separately.
- `ServiceName` (confman.go:223-225) is the `serviceName` field itself.
- Case folding is ASCII only; Go's `strings.ToLower`/`ToUpper` also map non-ASCII letters.
- `path.Join`/`Clean`/`Split`/`Base` and `filepath.Ext` are modelled without `.` and `..` resolution.
  - Empty elements are dropped.
  - `/` is the only separator.
- Context cancellation is an oracle: the context is done from a fixed check on. There is no concurrency.
- `ConfmanCore.Confman.CopyInto`: the second cancellation check of `copy` is made on the same context, but just before the target's write rather than on the source's side. The order of calls is the same.
- `confman.ChamberCompatible` is a package variable in Go; here it is a constructor argument.
- Confman and the decorator each hold a `ParameterStore` directly rather than any `Storage`. A confman over the decorator is not composed.
- The in-place folding loops visit each original key once. Go may or may not revisit keys inserted during a range, but revisiting a folded key changes nothing.
- Process execution (`execSyscall`, `execCmd`, `os.Exit`) is not modelled.
  - `os.Environ()` is a parameter.
  - On a read error `ExecCommand` returns nil without building the environment, modelled as `built == false`.
- `configuration.Read` (the YAML files) is not part of this model. Service configs are a parameter of `Deploy.DeployCommand`.
- Terminal input is a list of answers. `None` stands for an `fmt.Fscanln` error, which is returned as PromptFailed; line scanning itself is not modelled.
- `DeployCommand` calls the confman's `WriteKeys`. In the `pkg/confman/confman.go` revision modelled, that method is `AddKeys` (fold the map, then WriteKeys on the storage), so `Deploy.WriteConfig` calls `ConfmanCore.Confman.AddKeys`.
- Deploy.HandleDefineAccepted: stated with compatibility off. With it on, the stale keys are compared with the upper-cased read and deleted lower-cased, which `Deploy.PromptDecides` states.
- Lemmas about full runs assume a store whose listing order names each parameter exactly once (`Ssm.Listed`), which every put and delete keeps.
- Versions are unbounded naturals rather than int64.
- The index-out-of-range panics of `batchKeys` (ten keys or more) and of `filePathToServicePath` (the slice `Deploy.BaseIsFilePath` exhibits) end the Go program. Here they are the error `Storage.IndexOutOfRange`, which no caller recovers from and every caller returns; the process ending is not modelled.
- The lemmas about reading, writing, deleting, Define, copy, Move, DeleteAll and handleDefine on full runs are stated for fewer than ten keys, because from ten keys on the code panics (`ParameterStoreSpec.ManyKeysPanic`).

## Findings

| source | as written | input that shows it | evidently intended | confidence | as-written member | corrected member |
|---|---|---|---|---|---|---|
| pkg/storage/parameterstore/parameterstore.go:397-413 | `batchKeys` makes `len/size + 1` batches of `min(len, size)` keys, indexing from `batch * size` | ten keys with batch size 10 read `keys[10]` (a panic), and eleven keys read `keys[11]` | consecutive batches of at most ten keys covering the keys in order | not executed | ParameterStoreSpec.BatchKeysAsWritten | ParameterStoreSpec.Chunks |
| pkg/confman/confman.go:122-125 | `make([]string, len(config))` followed by `append` puts `len(config)` empty keys before the real ones | moving `{"a": "1"}` deletes `["", "a"]`; the empty key names the service path itself, so a parameter stored under exactly that name is deleted too | each copied key deleted once | not executed | ConfmanCore.MoveKeysAsWritten | ConfmanCore.Confman.Move |

`ParameterStoreSpec.BatchKeysReadsPastEnd` shows that the last index reaches the end. `ReadKeys` and `DeleteKeys` batch as written: `ParameterStoreSpec.ManyKeysPanic` states that from ten keys on they stop in the panic, before any call. `ParameterStoreSpec.ChunksCover`, `ParameterStoreSpec.ChunkedReadValues` and `ParameterStoreSpec.ChunkedDeleteAll` prove that the intended batches would cover, read and delete any number of keys.

`ConfmanCore.MoveAsWrittenDeletesServicePath` exhibits the extra deletion. `ConfmanCore.MoveKeepsServicePath` proves that the corrected list, which `Move` uses, spares that parameter. `ConfmanCore.MoveAsWrittenPanics` shows that once five keys are moved, the doubled list reaches ten keys, so its deletion stops in the `batchKeys` panic above and the source keeps every parameter.
