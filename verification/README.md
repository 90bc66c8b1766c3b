# Freedom Names: a verified model

Freedom Names gives people names that nobody can take away. A name is either self-certifying (a signed record under the
hash of its owner's key) or bare, bound to an owner by a token on the Bitcoin Cash chain; what a name points at is stored
and replicated by its readers. This project models the three parts whose correctness is not visible from any one function.

**The content layer.** A node stores blobs under their hashes. An index records which sets of blobs it holds, which of
them are its own, and why each blob is kept: because a recorded set names it, or because a transfer in flight claims it.
Publishers, push receivers and the eviction pass all change this index, one critical section at a time, and write blobs
between those sections. `IndexModel` gives each critical section in closed form, and `Eviction` says what an access, a
recording and the limits mean for the order in which sets are given up; the classes in `ContentIndex` are the code,
proved against those forms. `ContentRuns` is the protocol: a step relation over an unbounded number of writers, with an
invariant; `CodeSteps` proves that the calls of the code are its steps, `ContentTotals` adds up its bytes and
`ContentHistory` has the theorems over whole runs. `Wire`, `PushProtocol` and `Chunking` are the byte formats, the
receiver and sender of a push as functions of a byte stream, and the split into chunks. `ContentService` is the code of
publishing, sending, receiving and fetching; `Transfers` and `EndToEnd` say what one transfer leaves behind and follow a
content from one node to another; `TransfersInRuns` proves that each step of a receiver and of a publisher is an action
that the runs allow, and that what they store reads back in every later state. `Discord` is about what the runs leave
out: exactly which accepted steps break the invariant, and how a node gets there. `Startup` says what is made of an
index file and when runs may begin there.

**The Bitcoin Cash registry.** `BchTx`, `OpReturn` and `LittleEndian` are the transaction serializer and parser with
CashTokens prefixes (CHIP-2022-02-CashTokens, section "Token Encoding"), and `RawTx` is a reader that keeps every field,
against which the serializer is proved. `Regrouping`, `Checksum` and `CashAddr` are the address format (CashAddr
specification, section "Checksum"), with a 40-bit state kept as a list of bits; `Remainder` proves that the checksum is
the remainder of a polynomial over the field of 32 elements, and `AddressLaws` what that makes of an address.
`BchWallet` selects coins and builds claims and rebinds, `WalletLaws` says which coins it considers and `RebindFees`
when a rebind pays what it estimates. `Registry` finds the winning claim of a name, walks the custody chain of its token
and resolves the owner on a modelled ledger, and `NameResolution` proves what the answer means. `Formats` lays out the
bytes of all these formats, and of those on the content layer's wire.

**Signed records.** `Record` is the byte string that a signature covers, `Validator` the choice between competing
values, and `Authoring` the choice of sequence numbers over runs of publishing.

## How to read it

Code that changes state is a class or a method with loops, and its `ensures` equates what it leaves with a specification
function. The lemmas are about those functions. SHA-256, RIPEMD-160, the key parser, the JSON bodies and the signature are
constants of function type about which nothing is assumed; a theorem that needs more (hashes of a known shape, a manifest
that survives its JSON form, no collision among the blobs at hand) says so in its `requires`. Time is a parameter. Sizes and
satoshis are unbounded integers except where a field of 32 or 64 bits is written or read. A history is looked up by locking
script, and transaction ids are in internal byte order. A writer and its reader are each held against the layout of their
bytes, so that a law about both does not rest on their agreeing with one another only.

Four things the model shows that the code's comments do not say:

- A transaction does not always survive its own serializer: a plain output whose script begins with 0xef is read back as a
  token or refused. `BchTx.TransactionRoundTrip` gives the exact condition.
- A rebind can pay less than its own fee estimate, because the estimate it selects coins by is for three inputs.
  `RebindFees.RebindPaysEstimate` says exactly when, from the four largest coins of the wallet, and
  `RebindFees.ManyInputsUnderpay` builds such a rebind from four coins at the dust limit.
- What is signed need not determine the record when a text contains a NUL byte: `Record.NulConfuses`, also for records
  that validation accepts, `Record.ValidRecordsCollide`. As a function, `canonicalBytes` also needs the length of the key:
  `Record.KeyLengthConfuses` gives a record with no resource records and a key eight bytes longer, which validation does
  not accept. With neither in play it determines the record up to order, `Record.CanonicalExactly`.
- A published set can lose its exact references, and a pushed one can leave blobs that nothing accounts for, when the root
  is indexed by then under another chunk list. `Discord.StepKeepsInvExactly` gives the exact condition on every accepted
  step. `Discord.RepublishManifest` publishes a chunked content and then the bytes of its manifest, after which references
  are stale; `Discord.PushMeetsPublish` starts at an empty store and ends with a committed push whose chunk belongs to no
  set. `TransfersInRuns.PublishMayRecord` and `PushMayCommit` show that neither happens as long as sets are recorded with
  the chunks of their roots, also after a start-up that adopted an incomplete manifest alone (`TransfersInRuns.LoadedLists`).
  Even then no step deletes a blob that is still claimed or referenced.

## Model

| member | source | states |
|---|---|---|
| `ContentIndexCode.BlobClaims.Claim` | internal/content/contentindex.go:282-290 | one more claim on exactly this blob, remembered by the handle; nothing else changes |
| `ContentIndexCode.BlobClaims.Discard` | internal/content/contentindex.go:298-305 | each remembered claim is dropped once and exactly the blobs nobody wants any more are deleted; the handle is empty, so a second call does nothing |
| `ContentIndexCode.ContentIndex.LoadEntries` | internal/content/contentindex.go:99-106 | entries whose root is gone are dropped and the references match the sets that remain |
| `ContentIndexCode.ContentIndex.ProbeManifest` | internal/content/contentindex.go:120-143 | finds a manifest exactly when the blob is small enough, decodes, and names only chunks that are on disk |
| `ContentIndexCode.ContentIndex.AdoptManifests` | internal/content/contentindex.go:116-144 | every unnamed complete manifest is adopted under its own chunks and size; afterwards no complete manifest is unaccounted for, whatever the order of visits |
| `ContentIndexCode.ContentIndex.AdoptRest` | internal/content/contentindex.go:145-158 | what is still unnamed is adopted alone, and then no blob is unaccounted for |
| `ContentIndexCode.ContentIndex.Load` | internal/content/contentindex.go:73-164 | after start-up references are exact and no blob is unaccounted for; entries survive with their root, and every other set is a blob that no entry names, indexed with exactly the chunks and size of its complete manifest, or alone when it has none and no other set names it |
| `Startup.ManifestsAdopted` | internal/content/contentindex.go:116-144 | a manifest of up to 1 MiB whose chunks are all on disk and that no other set names is indexed with these chunks and its total size |
| `Startup.AdoptedExactly` | internal/content/contentindex.go:116-158 | whatever is adopted is such a manifest with its chunks and total size, or a blob alone with its length |
| `Startup.LoadedStart` | internal/content/contentindex.go:73-164 | runs may begin at a loaded index if and only if blobs are what their names say and the sizes taken on trust, those of the file and of adopted manifests, cover their blobs |
| `Startup.IntactIsCovered` | internal/content/contentindex.go:132-143 | they do for an adopted manifest whose chunks have the lengths it declares |
| `ContentIndexCode.ContentIndex.ReferenceSet` | internal/content/contentindex.go:168-179 | root and every chunk gain this set as a referrer, and only they |
| `ContentIndexCode.ContentIndex.MarkOwned` | internal/content/contentindex.go:186-206 | the set becomes owned with this size and chunk list, keeps its age if it was held, is referenced, and its claims are handed over without deleting anything |
| `ContentIndexCode.ContentIndex.AddHostedLocked` | internal/content/contentindex.go:221-232 | a new set is recorded as hosted and referenced; one already held is only refreshed |
| `ContentIndexCode.ContentIndex.ReleaseClaimsLocked` | internal/content/contentindex.go:312-331 | claims are dropped one per entry; blobs are deleted only on discard and only when neither claimed nor referenced |
| `ContentIndexCode.ContentIndex.TouchBlob` | internal/content/contentindex.go:345-361 | exactly the sets that reference the blob count as accessed |
| `ContentIndexCode.ContentIndex.EvictLocked` | internal/content/contentindex.go:558-578 | the set is gone, its references are gone, and of its blobs exactly those left unreferenced and unclaimed are deleted |
| `ContentIndexCode.ContentIndex.HostedBytesLocked` | internal/content/contentindex.go:387-397 | reserved bytes plus the size of every set that is not owned |
| `ContentIndexCode.ContentIndex.PickVictim` | internal/content/contentindex.go:514-531 | an evictable set that no other evictable set has to precede, or none when nothing is evictable, whatever the map order |
| `ContentIndexCode.ContentIndex.FitLocked` | internal/content/contentindex.go:495-547 | the answer is the closed form `Fits`, for the dry run and the applying run alike; the victims are a run of next victims each of which was needed; a dry run changes nothing |
| `ContentIndexCode.ContentIndex.Reserve` | internal/content/contentindex.go:412-423 | succeeds exactly when the set fits, then reserves its size and deletes nothing |
| `ContentIndexCode.ContentIndex.Release` | internal/content/contentindex.go:427-441 | the promised bytes are returned, never below zero |
| `ContentIndexCode.ContentIndex.CommitHosted` | internal/content/contentindex.go:457-472 | the promise is consumed either way; the set is recorded and its claims handed over exactly when it fits, after the pass that made room |
| `ContentIndexCode.ContentIndex.Admit` | internal/content/contentindex.go:482-490 | succeeds exactly when the set fits, and evicts exactly the victims of the pass |
| `IndexModel.FitRunAnswer` | internal/content/contentindex.go:495-547 | whichever victims a pass picks, it succeeds if and only if size, reservations and the protected hosted bytes fit the limits |
| `IndexModel.NextVictimExactly` | internal/content/contentindex.go:514-531 | told from the fields: the next victim is a hosted set past its time to live or an hour old, past it if any such set is, and otherwise of the earliest last access |
| `IndexModel.VictimsInOrder` | internal/content/contentindex.go:513-546 | at its turn every victim is such a set, is taken once, and among all that still may go is past its time to live if one is and of the earliest last access among its kind |
| `Eviction.AccessedNowGoesLast` | internal/content/contentindex.go:514-531 | a set accessed at the time of the pass is given up only after every set that may go and was accessed earlier |
| `Eviction.ReadRefreshes` | internal/content/contentindex.go:345-361 | reading a blob sets the last access of exactly the sets that name it, and nothing else |
| `Eviction.ReadGoesLast` | internal/content/contentindex.go:345-361 | so a pass at that time spares them as long as another set with an earlier access may go |
| `Eviction.HeldOfferRefreshes` | internal/node/replicate.go:183-206 | an offer is answered 2 exactly when its root is indexed, which then counts as an access to that set and changes nothing else; answered 1 it reserves its size, and otherwise it changes nothing |
| `Eviction.YoungIsSpared` | internal/content/contentindex.go:519-523 | no pass in the hour after a set was stored takes it, unless its time to live has run out |
| `Eviction.CommittedEntry` | internal/content/contentindex.go:221-232 | a commit dates a new set by its own time and names its sender, refreshes a held one, and leaves all other entries that were not evicted as they were |
| `Eviction.PublishedEntry` | internal/content/contentindex.go:186-206 | a publish keeps age and origin of a held set and dates a new one |
| `Eviction.AdoptedEntry` | internal/content/contentindex.go:116-158 | what start-up adopts is hosted, of nobody, and as old as the start-up |
| `Eviction.AnswerExactly` | internal/content/contentindex.go:495-547 | a pass accepts only what keeps within the size limit and, with what is left, within the budget; it refuses only what exceeds one of them when every set is gone that may go |
| `IndexModel.FailedPassEvictsAll` | internal/content/contentindex.go:513-546 | a pass that fails after starting has evicted exactly the evictable sets |
| `IndexInvariant.RecordKeepsRefsExactly` | internal/content/contentindex.go:186-206 | recording keeps references exact if and only if it drops no blob of an earlier chunk list of the same root |
| `IndexInvariant.DiscardKeeps` | internal/content/contentindex.go:298-331 | discarding keeps the invariant and every wanted blob |
| `IndexInvariant.EvictKeeps` | internal/content/contentindex.go:558-578 | evicting keeps the invariant and every wanted blob |
| `IndexInvariant.WholeKept` | internal/content/contentindex.go:312-331 | a set that was whole and is still indexed with the same chunks is whole |
| `ContentRuns.StepKeepsInv` | internal/content/contentindex.go:186-331 | every action of the runs keeps: exact references, no orphan, names true to bytes, claim counts equal to the live writers' claims, written blobs on disk |
| `CodeSteps.Claim` | internal/content/contentindex.go:282-290 | the code's claim is the run's: made where the run allows it, it leaves the index and the handle that the action leads to |
| `CodeSteps.Put` | internal/content/content.go:109-141 | so is writing a claimed blob |
| `CodeSteps.Discard` | internal/content/contentindex.go:298-305 | so is a discard |
| `CodeSteps.Publish` | internal/content/contentindex.go:186-206 | so is recording an owned set |
| `CodeSteps.Reserve` | internal/content/contentindex.go:412-423 | so is a reservation, which is given exactly when the run's writer then holds a promise |
| `CodeSteps.Release` | internal/content/contentindex.go:427-441 | so is a release |
| `CodeSteps.Commit` | internal/content/contentindex.go:457-472 | so is a commit, with the victims and the answer its pass arrives at |
| `CodeSteps.Admit` | internal/content/contentindex.go:482-490 | so is an admission |
| `CodeSteps.TouchSet` | internal/content/contentindex.go:334-342 | so is an access |
| `Discord.StepKeepsInvExactly` | internal/content/contentindex.go:186-472 | of all that the code accepts, an action keeps these if and only if it is neither a publish that leaves out a blob of the set it replaces, nor a commit over a root that stays held which hands over a chunk that no other transfer claims and no remaining set names; either way nothing still claimed or referenced is deleted |
| `ContentRuns.DeletedOnlyWhenUnwanted` | internal/content/contentindex.go:312-331 | a blob leaves the disk only when afterwards no live writer claims it and no indexed set names it |
| `ContentRuns.ChunksKept` | internal/content/contentindex.go:186-232 | a root that stays indexed changes its chunk list exactly to that of a publish of it, or of a commit whose own pass took it first; in runs no blob of its set is dropped |
| `ContentRuns.StepLists` | internal/content/contentindex.go:186-232 | the chunk list of an indexed root was there before or is the one this action records |
| `Discord.CommitExactly` | internal/content/contentindex.go:457-472 | a commit over a root that its pass leaves indexed leaves no orphan if and only if each of its chunks is still claimed by others or named by a set that stays; it loses no wanted blob either way |
| `Discord.PublishedExactly` | internal/node/contentnet.go:126-215 | a publish keeps the references exact if and only if it carries every blob of the set indexed under its root |
| `Discord.RepublishManifest` | internal/node/contentnet.go:126-215 | publishing the bytes of a small manifest after the content it describes leaves stale references, unless its chunks all are the manifest itself |
| `Discord.DiscordReached` | internal/node/replicate.go:225-311 | from an empty store, a push of a set and a publish of its root alone in between end in an accepted commit with an orphan; every state before it is in order |
| `Discord.PushMeetsPublish` | internal/node/contentnet.go:146-160 | so it is for every chunked content with a manifest that is small enough to be published as a content of its own |
| `ContentRuns.WholeStaysWhole` | internal/content/contentindex.go:558-578 | a whole set stays whole under every action that leaves it indexed |
| `ContentRuns.RecordedWhole` | internal/content/contentindex.go:186-232 | a set is whole in the state in which it is recorded, even when the same commit evicts others |
| `ContentRuns.OwnedIsKept` | internal/content/contentindex.go:495-547 | no action evicts an owned set |
| `ContentTotals.DiskConservation` | internal/content/contentindex.go:312-331 | bytes on disk never exceed what indexed sets declare plus what live writers accepted (that a receiver accepts no more than it was offered is `TransfersInRuns.ReceiverWithinOffer`) |
| `ContentTotals.CommitWithinBudget` | internal/content/contentindex.go:457-472 | a commit consumes its promise whole (the clamp at zero is never reached), keeps hosted bytes and reservations within the budget, and one that stores a new set leaves their sum within it |
| `ContentTotals.StepWithinBudget` | internal/content/contentindex.go:387-472 | every action keeps the reservations equal to the outstanding promises and both reservations and hosted bytes within the budget |
| `ContentHistory.RunKeepsInv` | internal/content/contentindex.go:186-331 | the invariant holds in every state of every run |
| `ContentHistory.RunWithinBudget` | internal/content/contentindex.go:387-472 | the budget holds in every state of every run |
| `ContentHistory.RunKeepsTidy` | internal/content/contentindex.go:312-331 | no claim count is left at zero in any state of any run |
| `ContentHistory.OwnedForever` | internal/content/contentindex.go:186-206 | once owned, a set is owned in every later state of every run |
| `ContentHistory.RecordedStaysWhole` | internal/content/contentindex.go:558-578 | from the state in which a set is recorded until it is evicted, every blob of it is on disk with its own bytes |
| `ContentHistory.PublishedContentSurvives` | internal/node/contentnet.go:126-215 | published content is owned and whole in every later state of every run |
| `ContentHistory.EmptyStart` | internal/content/contentindex.go:73-80 | an empty store is a state that runs may start from |
| `Content.ManifestRoundTrip` | internal/content/content.go:228-265 | an encoded manifest decodes to itself exactly when it satisfies the bounds |
| `Content.ManifestPositive` | internal/content/content.go:239-265 | a manifest within the bounds stands for at least one byte |
| `Formats.ManifestCount` | internal/content/content.go:239-265 | a manifest is valid if and only if its chunks are well-formed hashes, at most 128 and as many as its total size takes at its chunk size, its total exceeds one chunk, and both sizes are within their limits |
| `Formats.ManifestBytes` | internal/content/content.go:239-265 | bytes are taken for a manifest if and only if they are the magic line and the body of a valid one |
| `Content.BlobStore.Put` | internal/content/content.go:109-141 | a blob within the limit is on disk under its hash, an existing one is left alone, a larger one is refused |
| `Chunking.PiecesJoin` | internal/node/contentnet.go:126-215 | the chunks of a content joined are the content |
| `Chunking.PieceLengths` | internal/node/contentnet.go:126-215 | all chunks but the last are full and the last holds the rest |
| `Chunking.ManifestOfIsValid` | internal/content/content.go:220-265 | the manifest of any chunked content passes the decoder's bounds, and each length it implies is its chunk's own, between one byte and a full chunk |
| `Chunking.IntactLength` | internal/content/content.go:220-265 | for every valid manifest, chunks of the lengths it implies make up exactly its total size |
| `Chunking.ChunkReader.Read` | internal/node/contentnet.go:413-438 | whatever the read sizes, the bytes returned are the next bytes of the content, end of file means that all of it was returned, and a failure means that some chunk is missing or of the wrong length |
| `Chunking.PublishedReadsBack` | internal/node/contentnet.go:281-321 | a store that holds a publish's blobs gives the content back, unless a small content is itself a manifest |
| `Wire.UvarintRoundTrip` | internal/node/contentnet.go:540-571 | every 64-bit value is read back, in at most ten bytes, whatever follows |
| `Wire.RequestRoundTrip` | internal/node/contentnet.go:540-564 | every hash of 1 to 128 bytes is read back, whatever follows |
| `Wire.BlobRoundTrip` | internal/node/contentnet.go:566-601 | every non-empty blob within the limits is read back, whatever follows |
| `Wire.OfferRoundTrip` | internal/node/replicate.go:80-111 | an offer is read back exactly when its hash is well formed and its size and blob count are within the limits |
| `Formats.VarintBytes` | internal/node/contentnet.go:540-571 | a varint is seven bits a byte, least significant first, the eighth bit set on all bytes but the last |
| `Formats.VarintExactly` | internal/node/contentnet.go:540-571 | a varint is read if and only if it ends within ten bytes, the tenth holding at most one, and then as the number it holds |
| `Formats.LengthsRefused` | internal/node/contentnet.go:540-601 | hashes of no or more than 128 bytes, blobs of none, more than allowed or more than 32 MiB, and lengths past the end of the stream are refused |
| `Formats.OfferInFull` | internal/node/replicate.go:80-111 | an offer is the root behind its length, then the size, then the number of blobs |
| `Formats.FramesInFull` | internal/node/replicate.go:143-164 | the frames of a set are its blobs in order, each after its hash, both behind their lengths |
| `PushProtocol.ReceiveSound` | internal/node/replicate.go:240-299 | whatever bytes arrive, the accepted blobs never weigh more than the offer, and a set accepted in full is the root's own bytes and every chunk it names, in order, with the right lengths, of exactly the offered size |
| `PushProtocol.HonestPushAccepted` | internal/node/replicate.go:219-220 | an honest sender's set is accepted in full: the framing allowance never cuts it short |
| `PushProtocol.FramesFit` | internal/node/replicate.go:219-220 | the frames of a whole set are no longer than the offered size plus the allowance |
| `Formats.ReadsNoFurther` | internal/node/replicate.go:214-220 | a receiver looks at no more than the offered size and 148 bytes a blob |
| `Transfers.RollbackRestores` | internal/content/contentindex.go:298-331 | an abandoned transfer leaves index, claims, references and reservations exactly as before, loses no blob, and leaves behind only blobs that somebody else wants |
| `Transfers.PassKeepsClaimed` | internal/content/contentindex.go:558-578 | no eviction pass takes a claimed blob |
| `Transfers.CommittedOnDisk` | internal/content/contentindex.go:457-472 | every blob of a committed set is on disk afterwards, whatever the pass evicted |
| `Transfers.OwnedOnDisk` | internal/content/contentindex.go:186-206 | every blob of a published set is on disk afterwards |
| `Transfers.FitsLater` | internal/content/contentindex.go:495-547 | a set that fits now fits at any later time if nothing else happens |
| `Publishing.SetSizeIsTotal` | internal/node/contentnet.go:196-208 | the size recorded for a publish is the weight of all its blobs, manifest included |
| `Formats.PublishLimits` | internal/node/contentnet.go:126-208 | a content can be published if and only if it is no larger than 1 GiB and its manifest, if it takes more than one piece, no larger than 32 MiB |
| `ContentServiceCode.ReadUvarint` | internal/node/contentnet.go:550-553 | reads a value of at most ten bytes or fails, moving past exactly its bytes |
| `ContentServiceCode.ReadRequest` | internal/node/contentnet.go:550-564 | reads a hash of 1 to 128 bytes or fails |
| `ContentServiceCode.ReadBlobMax` | internal/node/contentnet.go:582-601 | reads a non-empty blob no longer than both limits or fails |
| `ContentServiceCode.ReadPushOffer` | internal/node/replicate.go:90-111 | reads an offer within the limits or fails |
| `ContentServiceCode.CheckBlob` | internal/node/replicate.go:254-283 | accepts exactly the root first and then the manifest's next chunk, under its own hash and of the manifest's length |
| `ContentServiceCode.ContentService.ClaimAndPut` | internal/node/replicate.go:284-293 | the blob is claimed before it is on disk |
| `ContentServiceCode.ContentService.ReceiveBlobs` | internal/node/replicate.go:221-299 | accepts exactly what `Receive` says of the stream, with every accepted blob claimed and stored and none besides |
| `ContentServiceCode.ContentService.CommitOrDiscard` | internal/node/replicate.go:301-311 | the set is recorded exactly when it fits, and otherwise rolled back |
| `ContentServiceCode.ContentService.AnswerOffer` | internal/node/replicate.go:189-201 | a held set is refreshed, one that fits is promised its bytes, any other is declined with nothing changed |
| `ContentServiceCode.ContentService.HandleOffer` | internal/node/replicate.go:189-320 | the reply byte and the index after the offer and after the transfer, for every byte stream |
| `ContentServiceCode.ContentService.HandlePush` | internal/node/replicate.go:180-320 | an unreadable offer changes nothing and gets no reply; any other is handled to one of its ends |
| `ContentServiceCode.ContentService.PutStream` | internal/node/contentnet.go:126-215 | any stream within the limits is stored as its blobs and recorded as owned under its root; any other is rolled back and nothing is recorded |
| `ContentServiceCode.ContentService.PutChunks` | internal/node/contentnet.go:156-194 | reading with one byte of look-ahead cuts the stream into exactly its chunks and builds exactly its manifest, or stops when it is too large |
| `ContentServiceCode.ReadFill` | internal/node/contentnet.go:232-238 | the bytes asked for, or all that are left |
| `ContentServiceCode.ContentService.LoadContentSet` | internal/node/replicate.go:46-57 | the set behind a root in the store, or none |
| `ContentServiceCode.ContentService.PushOnStream` | internal/node/replicate.go:131-174 | writes the offer, and the frames of every blob only after an accept; succeeds exactly when the receiver held the set already, or took all blobs and confirmed |
| `ContentServiceCode.ContentService.Fetch` | internal/node/contentnet.go:260-321 | the content behind a local root, expanded from its manifest, or none when a chunk is missing; the sets it belongs to count as accessed |
| `EndToEnd.TransferSettles` | internal/node/replicate.go:202-319 | however a transfer ends, its reservation is returned exactly once and every claim it made is dropped |
| `EndToEnd.FinalReply` | internal/node/replicate.go:240-319 | a final 0 records nothing; a final 1 means that the whole set the root commits to arrived and is recorded with the offered size |
| `EndToEnd.AbandonedPush` | internal/node/replicate.go:202-299 | an accepted push that is abandoned leaves the index exactly as before the offer |
| `EndToEnd.TransferKeepsNames` | internal/node/replicate.go:240-293 | every blob on disk hashes to its name, whatever a sender streams |
| `EndToEnd.StorableUnlessColliding` | internal/content/content.go:109-141 | on such a disk every set of blobs within the limit can be stored unless hashes collide |
| `EndToEnd.PublishedIsWhole` | internal/node/contentnet.go:126-208 | what a publish writes is a whole set as a receiver checks it |
| `EndToEnd.PublisherLoads` | internal/node/replicate.go:46-57 | the publisher loads from its store exactly the set it recorded |
| `EndToEnd.PublishedSetReceived` | internal/node/replicate.go:131-174 | what the publisher sends is read as its offer exactly when the set is within the push limit, and then received in full |
| `EndToEnd.PublishPushFetch` | internal/node/replicate.go:180-320 | publish on one node, push to another that accepts and is left alone until it commits: it does commit, and its fetch returns exactly the published bytes |
| `TransfersInRuns.ReceiverWithinOffer` | internal/node/replicate.go:221-295 | whatever a sender streams, the blobs a receiver has claimed never weigh more than it was offered |
| `TransfersInRuns.ReceiverSteps` | internal/node/replicate.go:240-294 | claiming and then writing each accepted blob are actions that the runs allow in any state |
| `TransfersInRuns.ReceiverReady` | internal/node/replicate.go:288-311 | a set accepted in full is exactly what its commit records: root, chunks and size |
| `TransfersInRuns.PublisherReady` | internal/node/contentnet.go:126-208 | a publisher holds exactly the blobs and the size that it records |
| `TransfersInRuns.PublisherSteps` | internal/node/contentnet.go:157-208 | each of its claims and writes is an action that the runs allow |
| `TransfersInRuns.ListsAlong` | internal/content/contentindex.go:186-232 | along a run whose recordings carry the chunks of their root, a root keeps its own chunk list once it has it |
| `TransfersInRuns.LoadedLists` | internal/content/contentindex.go:108-164 | whatever start-up adopts is indexed with the chunks of its root, or alone |
| `TransfersInRuns.PushMayCommit` | internal/node/replicate.go:299-311 | the commit of a push whose root was not indexed when it was offered is allowed in every later state of the run, when every recording in between carries the chunks of its root |
| `TransfersInRuns.PublishMayRecord` | internal/node/contentnet.go:196-208 | a complete publish of a content that is not itself a small manifest may be recorded, when its root is not indexed, is indexed with its own chunks or is indexed alone |
| `TransfersInRuns.ReadsBackInRuns` | internal/node/replicate.go:299-319 | in any run, from the state in which a publish or a push records a content until it is evicted, it reads back exactly, whoever else is at work |
| `TransfersInRuns.SentFromRuns` | internal/node/replicate.go:131-174 | published content is loaded from every later state and sent whole with each blob opened in any later state of its own, and received in full |
| `TransfersInRuns.JourneyAcrossRuns` | internal/node/replicate.go:131-320 | published in a run of one node, sent with each blob opened in any later state of it and committed in a run of another, a content reads back there exactly in every state until it is evicted |
| `Regrouping.ConvertBits` | internal/bch/cashaddr.go:93-110 | regroups the bits of the input, for all widths up to eight, although the 32-bit accumulator sheds its high bits |
| `Regrouping.RegroupRoundTrip` | internal/bch/cashaddr.go:93-110 | narrower groups with padding and back without it is the identity |
| `Checksum.PolymodLoop` | internal/bch/cashaddr.go:68-90 | the checksum value of the input |
| `Checksum.RunLinear` | internal/bch/cashaddr.go:68-90 | the state after a whole input is linear over exclusive or |
| `Checksum.ChecksumVerifies` | internal/bch/cashaddr.go:39-53 | any body followed by its eight checksum symbols has checksum value zero |
| `Checksum.StepInjective` | internal/bch/cashaddr.go:68-90 | no two 40-bit states step to the same state on the same symbol |
| `Checksum.BurstDetected` | internal/bch/cashaddr.go:68-90 | inputs that differ only within eight consecutive symbols, in one or in all of them, have different checksum values |
| `Remainder.GeneratorIsMultiple` | internal/bch/cashaddr.go:67-91 | the five numbers of the table are the low coefficients of X^8 + 19 X^7 + 3 X^6 + 25 X^5 + 11 X^4 + 25 X^3 + 3 X^2 + 19 X + 1 times 1, x, x^2, x^3 and x^4 in the field of 32 elements with x^5 = x^3 + 1 |
| `Remainder.RunIsRemainder` | internal/bch/cashaddr.go:67-91 | the loop leaves the remainder, modulo that polynomial, of the one with coefficients 1 and then the input |
| `Remainder.RemainderIsUnique` | internal/bch/cashaddr.go:67-91 | there is only one such remainder |
| `Remainder.PolymodIsRemainder` | internal/bch/cashaddr.go:67-91 | the checksum value is that remainder with its constant coefficient changed by one |
| `Remainder.CodewordRemainder` | internal/bch/cashaddr.go:40-53 | a body with its checksum symbols leaves the remainder one |
| `CashAddr.EncodeCashAddr` | internal/bch/cashaddr.go:28-65 | prefix, colon, payload characters and checksum characters |
| `CashAddr.CutSymbols` | internal/bch/cashaddr.go:49-53 | the eight five-bit symbols of a checksum value, most significant first |
| `CashAddr.AddressRoundTrip` | internal/bch/cashaddr.go:28-65 | a reference decoder that checks the checksum gives back exactly the type and hash |
| `CashAddr.AddressInjective` | internal/bch/cashaddr.go:28-65 | different hashes or types have different addresses |
| `CashAddr.BurstRejected` | internal/bch/cashaddr.go:39-65 | an accepted address with up to eight consecutive characters replaced is rejected |
| `AddressLaws.AddressIsCodeword` | internal/bch/cashaddr.go:27-65 | the low five bits of the prefix of the network, a zero and the symbols after the colon, behind a one, leave the remainder one |
| `AddressLaws.AddressShape` | internal/bch/cashaddr.go:27-65 | an address has 42 characters after the colon, the first a q for a public key hash and a p for a script hash |
| `AddressLaws.FirstExample` | internal/bch/cashaddr_test.go:12-19 | the payload of the hash 76a04053… is written qpm2qszn… |
| `AddressLaws.SecondExample` | internal/bch/cashaddr_test.go:20-24 | the payload of the hash 011f28e4… is written qqq3728y… |
| `LittleEndian.VarIntRoundTrip` | internal/bch/bchtx.go:113-128 | every CompactSize integer is read back, whatever follows |
| `LittleEndian.VarBytesRoundTrip` | internal/bch/bchtx.go:130-133 | every length-prefixed byte string is read back, whatever follows |
| `Formats.CompactSizeBytes` | internal/bch/bchtx.go:113-128 | which of 1, 3, 5 or 9 bytes a CompactSize integer takes, and what each of them is |
| `Formats.LittleEndianBytes` | internal/bch/bchtx.go:325-345 | fixed-width integers are written least significant byte first |
| `LittleEndian.ByteReader.ReadBytes` | internal/bch/bchtx.go:561-568 | that many bytes, or a failure that moves nothing |
| `LittleEndian.ByteReader.ReadUint32` | internal/bch/bchtx.go:570-576 | four bytes as a little-endian number |
| `LittleEndian.ByteReader.ReadInt64` | internal/bch/bchtx.go:578-584 | eight bytes as a signed little-endian number |
| `LittleEndian.ByteReader.ReadVarInt` | internal/bch/bchtx.go:586-613 | a CompactSize integer in any of its four forms |
| `LittleEndian.ByteReader.ReadVarBytes` | internal/bch/bchtx.go:615-621 | a length-prefixed byte string; a length with the sign bit set fails |
| `LittleEndian.Buffer.PutVarInt` | internal/bch/bchtx.go:113-128 | appends the shortest CompactSize form |
| `BchTx.TokenRoundTrip` | internal/bch/bchtx.go:195-221 | every valid token prefix is split off again with all its fields, leaving the script |
| `Formats.TokenBytes` | internal/bch/bchtx.go:169-221 | which tokens may be written, where each field of their prefix stands and which flag says what |
| `Formats.SplitToken` | internal/bch/bchtx.go:440-485 | what is split off a wrapped script has its fields there, an unused flag that is clear and a commitment of 1 to 40 bytes if it has one; the script is the rest |
| `BchTx.ReadTokenPrefix` | internal/bch/bchtx.go:440-485 | token and script of a wrapped output, or a failure on a malformed prefix |
| `BchTx.SplitOutputExactly` | internal/bch/bchtx.go:440-485 | an output survives the split if and only if it carries a token or its script does not begin with 0xef |
| `BchTx.OutputRoundTrip` | internal/bch/bchtx.go:225-233 | a serialized output is read as its value and split script, whatever follows |
| `BchTx.InputRoundTrip` | internal/bch/bchtx.go:334-339 | a serialized input with a 32-byte prevout is read back as its outpoint, whatever follows and whatever unlocks it |
| `RawTx.RawRoundTrip` | internal/bch/bchtx.go:313-346 | read by a reader that keeps everything, a serialized transaction is its version, each outpoint with its own unlocking script and sequence number, each value with its wrapped script, its lock time, and not a byte more |
| `BchTx.Serialize` | internal/bch/bchtx.go:313-346 | refuses invalid tokens and otherwise writes the encoding |
| `BchTx.ReadTx` | internal/bch/bchtx.go:385-436 | parses exactly what the parsing function accepts |
| `BchTx.ParseOfEncode` | internal/bch/bchtx.go:385-436 | what the parser makes of any serialized transaction with 32-byte prevouts |
| `BchTx.TransactionRoundTrip` | internal/bch/bchtx.go:313-346 | parsing recovers every outpoint, value, script and token if and only if no plain script begins with 0xef |
| `BchTx.LonePrefixByteFails` | internal/bch/bchtx.go:440-449 | a transaction with the one-byte script 0xef is written and cannot be read back |
| `OpReturn.AppendPush` | internal/bch/bchtx.go:157-167 | appends a push in its shortest header form |
| `OpReturn.BuildOpReturn` | internal/bch/bchtx.go:146-152 | the script of the given pushes |
| `OpReturn.ReadOpReturn` | internal/bch/bchtx.go:499-541 | the pushes of a script, stopping where it is malformed |
| `OpReturn.OpReturnRoundTrip` | internal/bch/bchtx.go:146-167 | a script gives its pushes back if and only if none is longer than 65535 bytes |
| `Formats.PushBytes` | internal/bch/bchtx.go:157-167 | the header bytes of a push of each length |
| `Formats.PushesStop` | internal/bch/bchtx.go:499-541 | reading stops, with the pushes so far, at an opcode past 0x4d or a length that runs past the end |
| `Formats.AnnouncementBytes` | internal/bch/bchtx.go:146-167 | the announcement of a name, byte by byte |
| `BchWallet.SelectFunding` | internal/bch/bchwallet.go:153-172 | pays exactly when the plain coins can, never with a token coin, never twice with one coin, and with as few coins as possible: the largest, up to the first that reaches the need |
| `BchWallet.LargestAreWorthMost` | internal/bch/bchwallet.go:160-170 | no choice of as many coins is worth more than the largest ones |
| `BchWallet.LargestFirstFacts` | internal/bch/bchwallet.go:160 | sorting loses and invents no coin |
| `BchWallet.SelectFundingGenesis` | internal/bch/bchwallet.go:322-352 | the shortest run of candidates that pays outputs and its own fee, or none when no run does |
| `BchWallet.MintFundingFacts` | internal/bch/bchwallet.go:322-352 | such a run holds plain coins only, starts with one at output index 0 and spends that outpoint once |
| `WalletLaws.MintFundingExactly` | internal/bch/bchwallet.go:322-352 | the coins considered for a claim are the first plain one at output index 0 and then every other plain coin, as often as it is listed |
| `WalletLaws.FirstMintExactly` | internal/bch/bchwallet.go:323-332 | that first one has no other such coin before it |
| `WalletLaws.OthersInOrder` | internal/bch/bchwallet.go:340-350 | the others are taken in the order of the wallet |
| `WalletLaws.PlainExactly` | internal/bch/bchwallet.go:153-159 | what a rebind may be funded with is every coin without a token, as often as it is listed |
| `WalletLaws.HolderExactly` | internal/bch/bchwallet.go:355-362 | the token coin is the first to hold the category |
| `BchWallet.BuildClaimTx` | internal/bch/bchwallet.go:226-256 | the claim over that run, with a fee of at least the estimate and less than it plus the dust limit |
| `BchWallet.FindNFT` | internal/bch/bchwallet.go:355-362 | the first coin that holds a token of the category |
| `BchWallet.BuildRebindTx` | internal/bch/bchwallet.go:260-296 | built exactly when the token is held and the plain coins reach the need; spends that token and the largest plain coins only; inputs exceed outputs, by less than the estimate plus the dust limit |
| `NameResolution.NameTxPays` | internal/bch/bchwallet.go:240-256 | a claim or rebind pays 546 satoshis to the name's marker, and everything else of value to the wallet: 1000 with the token, and the change |
| `NameResolution.NameTxInFull` | internal/bch/bchwallet.go:240-310 | read in full, its bytes are a final version 2 transaction without lock time that spends exactly those coins, each with its own unlocking script, with the announcement, the marker payment and the change in their places |
| `NameResolution.MarkersDiffer` | internal/bch/marker.go:41-52 | a marker is a payment to the hash of "FN:" and the name, so two names share one only if these hashes collide |
| `Formats.NameTokenBytes` | internal/bch/bchwallet.go:240-248 | the locking bytes of a name token |
| `RebindFees.ChosenIsTop` | internal/bch/bchwallet.go:273-276 | the funding of a rebind is the least number of the largest plain coins that reach 1926 satoshis |
| `RebindFees.TiesAgree` | internal/bch/bchwallet.go:160 | any order of the coins by falling value gives the same totals, so ties make no difference to the fee |
| `RebindFees.RebindPaysExactly` | internal/bch/bchwallet.go:272-294 | with k funding coins a rebind pays its estimate if and only if they and the token coin are worth 2334 + 296 k |
| `RebindFees.FiveCoinsNeverPay` | internal/bch/bchwallet.go:272-294 | with a token coin of token dust, a rebind that needs five or more funding coins never pays its estimate |
| `RebindFees.RebindPaysEstimate` | internal/bch/bchwallet.go:272-294 | with a token coin of token dust, it pays its estimate if and only if the two largest plain coins reach 1926, or the three largest 2222, or the three fall short of 1926 and the four largest reach 2518 |
| `RebindFees.ManyInputsUnderpay` | internal/bch/bchwallet.go:260-296 | the rebind built from a wallet of four coins of 546 satoshis spends all of them and pays 1638, where its estimate is 1972 |
| `Registry.ParseFNMetadata` | internal/bch/registry_bch.go:421-441 | the first output that announces a parsable key for this name |
| `Registry.MetadataExactly` | internal/bch/registry_bch.go:421-441 | told from the pushes: a tag and key are found if and only if some output pushes FN01 or FN02, this very name and something that parses as a key, and then those of the first such output |
| `NameResolution.OtherNameSilent` | internal/bch/registry_bch.go:431-433 | a claim or rebind of one name announces nothing about any other |
| `NameResolution.RevealedExactly` | internal/bch/registry_bch.go:247-262 | a scan takes something from an entry if and only if it has the required number of blocks from its own to the tip and some output speaks of the name |
| `Registry.GenesisCategory` | internal/bch/registry_bch.go:315-322 | the transaction spent by the first input that spends output 0 |
| `Registry.FindToken` | internal/bch/registry_bch.go:338-344 | the first output of the category |
| `Registry.FindSpender` | internal/bch/registry_bch.go:385-416 | the newest listed transaction that spends the outpoint; a truncated scan without one is not an answer |
| `Registry.CurrentCommitment` | internal/bch/registry_bch.go:327-380 | the commitment at the end of the walk from the mint, or why there is none |
| `Registry.Inspect` | internal/bch/registry_bch.go:247-262 | what one confirmed entry announces; unconfirmed, unparsable and silent ones are passed over |
| `Registry.Scan` | internal/bch/registry_bch.go:243-275 | every binding and the earliest claim of a scan |
| `Registry.WinningClaim` | internal/bch/registry_bch.go:170-216 | the earliest confirmed claim with its category, or why there is none |
| `Registry.Resolve` | internal/bch/registry_bch.go:219-311 | the owner that the scan and the custody walk lead to, or why there is none |
| `Registry.BestIsEarliest` | internal/bch/registry_bch.go:200-203 | the claim chosen is (height, txid)-least among all claims scanned |
| `Registry.BestIgnoresOrder` | internal/bch/registry_bch.go:200-203 | the claim chosen depends only on which entries were scanned |
| `Registry.BindingsExactly` | internal/bch/registry_bch.go:263 | a hash is bound if and only if an entry reveals a key with that hash, and to such a key |
| `NameResolution.ResolutionIgnoresOrder` | internal/bch/registry_bch.go:237-310 | any order of the same history gives the same claim and, up to their hash, the same owner |
| `NameResolution.TruncationExactly` | internal/bch/registry_bch.go:451-462 | on a height-ascending history, cutting it off keeps the winning claim if and only if no claim dropped is at the winner's height with a smaller transaction id |
| `NameResolution.SafeTruncation` | internal/bch/registry_bch.go:456-462 | a truncated lookup that finds an owner agrees with the full one when no such claim was dropped |
| `NameResolution.BuriedClaimStays` | internal/bch/registry_bch.go:451-462 | none was when the winner is strictly below the first entry dropped |
| `NameResolution.LongHistory` | internal/bch/registry_bch.go:456-462 | so it is with the 512 oldest entries of a longer history |
| `NameResolution.SpenderIsUnique` | internal/bch/registry_bch.go:385-416 | on a complete ledger with one spender for every outpoint, the scan finds that spender, or the outpoint is unspent |
| `NameResolution.RecentSpender` | internal/bch/registry_bch.go:385-416 | in a history of more than 512 entries the newest 512 decide, and when none of them spends the output the answer is left open |
| `NameResolution.ResolutionIgnoresAllOrders` | internal/bch/registry_bch.go:219-416 | on a complete ledger with one spender for every outpoint, the owner does not depend on the order of any history, those of the custody hops included |
| `NameResolution.WalkFollowsCustody` | internal/bch/registry_bch.go:346-379 | the walk ends with the commitment reached by following the first output of the category until unspent, burned or out of hops |
| `NameResolution.OwnerExactly` | internal/bch/registry_bch.go:291-310 | an owner is returned if and only if a confirmed announcement revealed a key whose hash is the live commitment, and then such a key |
| `NameResolution.WinnerExactly` | internal/bch/registry_bch.go:170-216 | the winning claim stands next to the name after FN01 in a confirmed transaction, no later by height and then transaction id than any other, and its category is that of the first output 0 it spends |
| `NameResolution.OwnerHoldsToken` | internal/bch/registry_bch.go:219-311 | a resolved key stands next to the name in an output of a confirmed transaction of the marker's history, and its hash is the commitment at the end of custody of the winning claim's token |
| `NameResolution.NotFoundMeans` | internal/bch/registry_bch.go:282-310 | a name is reported as not registered only if every confirmed entry scanned was fetched, and from a history that was cut off only if its winning claim spends no output 0 or mints no token |
| `NameResolution.UnfetchedFails` | internal/bch/registry_bch.go:251-254 | a confirmed entry that cannot be fetched leaves the lookup without an answer |
| `NameResolution.ClaimParses` | internal/bch/bchwallet.go:226-256 | a built claim parses back to its own category, its announcement and its token |
| `NameResolution.BuiltClaimResolves` | internal/bch/bchwallet.go:226-256 | on a chain whose histories list every payment, a built claim that is the earliest, is not cut off by a long history and whose token has not moved resolves to the key it announced |
| `NameResolution.RebindParses` | internal/bch/bchwallet.go:260-296 | a built rebind parses back to a spend of the token coin, the announcement of the new key and the token bound to it |
| `NameResolution.RebindTakesOver` | internal/bch/bchwallet.go:260-296 | on such a chain, once a built rebind of a resolved name's token is confirmed and the token has not moved on, the name resolves to the new key |
| `Ordering.BeforeTotal` | internal/record/validator.go:81 | the byte-wise order is total |
| `Ordering.BeforeExactly` | internal/record/validator.go:81 | one byte string comes before another if and only if it ends or has the smaller byte where they first differ |
| `Record.CanonicalBytes` | internal/record/record.go:62-93 | the bytes that are signed |
| `Record.CanonicalReadsBack` | internal/record/record.go:62-93 | read field by field, the signed bytes are the name, the sorted resource records, the sequence number, the expiry and the key |
| `Record.SortedByFields` | internal/record/record.go:67-75 | sorted records come by type, and by value within a type |
| `Record.SortKeepsAll` | internal/record/record.go:67-75 | sorting loses and invents no record |
| `Record.BigEndian` | internal/record/record.go:82-91 | numbers are written most significant byte first |
| `Record.SortIgnoresOrder` | internal/record/record.go:67-75 | sorting forgets the order of records with distinct type and value |
| `Record.CanonicalIgnoresOrder` | internal/record/record.go:62-93 | the order in which such records are listed does not change what is signed |
| `Record.CanonicalInjective` | internal/record/record.go:62-93 | for NUL-free texts and keys of one length, what is signed determines the record up to that order |
| `Record.CanonicalExactly` | internal/record/record.go:62-93 | for such records without repeated type and value, the bytes agree if and only if the fields do and the resource records are the same ones in some order |
| `Record.NulConfuses` | internal/record/record.go:76-84 | with a NUL in a value, any two records in order sign the same bytes as one that spells both |
| `Record.AcceptedRecords` | internal/record/record.go:157-201 | which resource records validation accepts, how many and under which labels |
| `Record.ValidRecordsCollide` | internal/record/record.go:157-201 | record validation accepts a CNAME and a TXT record that sign the same bytes as one CNAME record it also accepts |
| `Record.KeyLengthConfuses` | internal/record/record.go:87-92 | as a function of its fields: the bytes of a record with one resource record are those of a record with none and a key eight bytes longer |
| `Validator.Select` | internal/record/validator.go:50-71 | the first index of the value that no other decodable value beats; none exactly when nothing decodes |
| `Validator.BeatsTotal` | internal/record/validator.go:74-82 | the conflict rule decides between any two different values, in one direction only |
| `Validator.BeatsTransitive` | internal/record/validator.go:74-82 | the conflict rule is transitive |
| `Validator.MergeCommutes` | internal/record/validator.go:74-82 | settling on one of two values does not depend on their order |
| `Validator.MergeAssociates` | internal/record/validator.go:74-82 | nor on their grouping |
| `Validator.MergeIdempotent` | internal/record/validator.go:74-82 | a value settled on with itself is itself, or nothing when it does not decode |
| `Validator.ReplicasConverge` | internal/record/validator.go:50-71 | replicas that have seen the same values in any order and number settle on the same one |
| `Validator.SelectIsWinner` | internal/record/validator.go:50-71 | selecting from all values is settling on them pairwise |
| `Validator.BestExactly` | internal/record/validator.go:50-82 | told from the fields: a value is settled on if and only if it decodes, no decodable value has a later sequence, none of its sequence a later expiry, and those equal in both have smaller bytes |
| `Authoring.NextSeq` | internal/authoring/service.go:304-312 | the least sequence that is no earlier than the clock and above the current record; none only after the last one |
| `Authoring.Service.Publish` | internal/authoring/service.go:257-291 | publishes the record with that sequence, or nothing when the current record is unavailable or the last |
| `Authoring.PublishTakesEffect` | internal/authoring/service.go:257-291 | the record published beats the one resolved, so the network then holds it |
| `Authoring.PublishedExactly` | internal/authoring/service.go:257-312 | the number published is the clock's, or one more than the current record's if that is greater; nothing else of the draft and no other name changes |
| `Authoring.SeqNeverFalls` | internal/record/validator.go:74-82 | nothing stored by anyone takes a name back to an earlier sequence |
| `Authoring.PublishedSeqsIncrease` | internal/authoring/service.go:257-312 | in any run, with any clock readings and any values stored by others in between, published sequences strictly increase |

## Left out

- LittleEndian.ByteReader.ReadBytes: adds position and length without the machine's integer width; lengths that wrap there are not modelled.
- Content.BlobStore.Put: writes in one atomic step; temporary files and failing disks are not modelled, nor the refusal of malformed names by Get, Has and Delete.
- ContentIndexCode.ContentIndex.Load: takes decoded entries; the index file's format, its atomic replacement and the periodic flush are not modelled. A loaded store may hold more hosted bytes than the budget, in which case the budget theorems do not apply until it has been brought below it.
- ContentIndexCode.ContentIndex.MarkOwned: over a set held with a chunk that the new list lacks it leaves an old reference behind, as the code does; only a small content that is itself a manifest, published over the set it describes, or an index file with a foreign list, leads there, and runs leave that publish out; `Discord` says what it does.
- ContentRuns.StepKeepsInv: identifies a blob with its hash by an uninterpreted function, so runs speak of hashes that never collide. The guards on claims and recordings are met by the receiver and the publisher, `TransfersInRuns`; a push that finds its root indexed under another chunk list by the time it commits is no step of the runs, nor is a publish that drops a blob; `Discord.StepKeepsInvExactly` covers both.
- ContentTotals.StepWithinBudget: covers publish, reserve, release, commit and admission; the admission followed by a separate recording in a remote fetch may exceed the budget and is not a step.
- ContentServiceCode.ContentService.HandlePush: runs without other writers between its steps; their interleaving is `ContentRuns`. Deadlines, rate limits, the peer's identity and announcements are not modelled.
- ContentServiceCode.ContentService.PushOnStream: the peer's replies are a byte sequence; opening the stream is not modelled.
- ContentServiceCode.ContentService.Fetch: covers content in the local store; finding providers, fetching from them and caching what they send is not modelled.
- EndToEnd.PublishPushFetch: takes for granted that hashes have their documented shape and length, that a manifest survives its JSON form and that no two blobs at hand collide; a receiver at which others are at work is `TransfersInRuns.JourneyAcrossRuns`.
- BchWallet.SelectFunding: breaks ties between coins of one value in one fixed way; `RebindFees.TiesAgree` shows that totals do not depend on it.
- BchWallet.BuildClaimTx: leaves out signing; any unlocking script goes with the theorems about its bytes.
- Registry.Resolve: asks a ledger value; timeouts, server failures mid-query and the owner cache are not modelled, and histories are keyed by script instead of its hash.
- Record.CanonicalBytes: sorts records of equal type and value in one fixed way; the code's sort may order those differently.
- Authoring.Service.Publish: is serialized by being a method; the lock map, key files, record validation and signing are not modelled.
- Placement of replicas, healing and republishing loops: each only calls the operations modelled here.
- The DNS server, HTTP interface, command line, configuration and peer-to-peer host.
- The signature hash of a transaction: its meaning lies in the hash.
