# dauth: a verified model of sign-in, key rotation and the access decision

dauth has two surfaces. `/siwe` hands out Sign-In with Ethereum challenges and trades a signed one for an address
token; `/exchange` trades that token for a permission token, after deciding whether the address may have what it
asks for. This project models both as state machines, and the decision between them, and proves what the service
promises about them. `dafny verify dfyconfig.toml` checks everything.

## How to read it

| file | models |
|---|---|
| `Lists.dfy` | the reference for ordered reports |
| `Text.dfy` | byte strings, decimal numerals, `big.Int` parsing, hexadecimal addresses |
| `ChallengeStore.dfy` | store operations, FNV-1a sharding, and the reference: one plain map with lazy expiry |
| `MemoryStore.dfy`, `PostgresStore.dfy` | the two challenge stores, as step functions and as objects proved against them |
| `SiweMessage.dfy` | the EIP-4361 printer |
| `SignIn.dfy` | `/challenge`, `/token`, janitor, clock and any number of replicas over one store |
| `Encoding.dfy`, `Keys.dfy`, `Rotation.dfy` | base64url and big-endian integers, loading and publishing keys, rotation plans |
| `CloudEvents.dfy`, `Grants.dfy` | wildcard agreements, filter defaulting, folding the agreements of a signed document |
| `Bits.dfy`, `Privileges.dfy` | two-bit privilege masks in an unbounded integer, the legacy id tables |
| `Template.dfy`, `TemplateGate.dfy` | the template cache under interleaved calls, and the documents it gates |
| `Access.dfy`, `Exchange.dfy`, `EndToEnd.dfy` | the access decision, both ways of asking for it, and both surfaces in one run |

Conventions:

- Times are integers (nanoseconds). That the clock does not go back is assumed where it is used: per shard in
  `MemoryRefinesPlainMap` (`ShardClocksInOrder`), over all calls in `SharedTableMatchesMemory` (`ClocksInOrder`), and
  in the sign-in machine, whose `Tick` never moves back.
- A `string` stands for a Go string, one `char` for one byte.
- Signature checks have three outcomes (valid, invalid, backend unavailable) and may depend on the moment. SHA-256,
  EIP-55 capitals, RFC 3339 rendering, PEM parsing, DID decoding, the chain, IPFS and identity-api are function-valued
  parameters, so each theorem holds for all of them. A failed outside call is `None`.
- Hash collisions are excluded only among the keys of one list (`NoCollision`), timestamps are told apart only within a
  finite range (`FaithfulStamps`, which `StampsCanBeFaithful` shows can be met), and nonces are fresh only where a
  `FreshNonces` precondition says so.
- An object whose methods change it in place is a class here. The stores' methods are proved equal to step functions,
  and a call of the template service to its five atomic steps in a row (`UninterruptedCall`); the lemmas over whole
  runs and interleavings are about those steps.

## Where the code and a reader's expectation part

- The shared table keeps whole microseconds (`TIMESTAMPTZ`) while the in-memory store keeps nanoseconds: a redemption
  in the last fraction of a microsecond succeeds on one and not on the other. `SharedTableMatchesMemory` gives the
  exact condition over runs, `RoundingGapExample` an input.
- An in-memory `Put` of an id already present is refused when its shard is full of unexpired entries, although an
  overwrite would not grow it; `RefusedIffFullOfLive` has no exception for it.
- `privilege_ids` of a minted token is always looked up in the vehicle table, so for a manufacturer asset every entry
  is zero (`LegacyIDsInToken`), while the mask uses the right table (`LegacyIDsBuildMask`).
- A request for nothing at all is put to the access check over gRPC but refused over HTTP: the one exception in
  `SurfacesAgree`.
- The template gates permissions only; cloud-event grants of the same document pass it by (`TemplatedDocumentExactly`).
  A template that names no permission for the contract counts as inactive, so it blocks them all.
- `Add` defaults missing ids and tags of an agreement but not its event type or source, while an empty one in a request
  stands for all: an agreement without a type or a source grants nothing at all (`NamelessChangesNothing`,
  `NamelessExample`), and `GrantsItsOwnWording` gives the exact condition for one that works.
- The document's own effective and expiry times are not consulted; only those of its agreements are. An expired
  document can pass (`ExpiredDocumentPasses`); `OwnWindowKeptExactly` says when that cannot happen.
- `IntArrayTo2BitArray` accepts any int length, but an index of 2^62 or more doubles to a negative bit number, on which
  `SetBit` panics. The only caller passes 128.
- The README's rotation steps are safe exactly when the first wait is a full cache window and the second a full token
  lifetime (`ProcedureIsSafeIffWaits`).

## Model

| member | source | states |
|---|---|---|
| Text.ParseIntegerExactly | internal/exchange/services/template/template.go:69-72 | a string parses to an integer iff it is an optional sign, zeros and the decimal numeral |
| Text.ParseAddressExactly | internal/siwe/server/handlers.go:103-107 | a string is an address iff it is its 40 hexadecimal digits in any capitals, after 0x, 0X or nothing |
| ChallengeStore.ShardOf | internal/siwe/nonce/memory.go:50-54 | every id falls to one of the 64 shards |
| ChallengeStore.Fnv1aExamples | internal/siwe/nonce/memory.go:50-54 | the hash has the published FNV-1a values on three inputs, which lead to shards 5, 44 and 10 |
| MemoryStore.MemoryRefinesPlainMap | internal/siwe/nonce/memory.go:50-120 | in every interleaving of Puts, Consumes and per-shard sweeps, with each shard's clock in order, every answer (stored, refused, found with its challenge, not found) is that of one plain map that never evicts, and each id is only ever in its own shard |
| MemoryStore.ConsumeExactly | internal/siwe/nonce/memory.go:59-93 | at the end of any run with each shard's clock in order, a Consume finds ch iff some earlier Put of ch under that id was stored, nothing since redeemed the id or stored another under it, and the reading is not past ch's expiry |
| MemoryStore.CapacityHolds | internal/siwe/nonce/memory.go:59-76 | in every reachable state each shard holds at most one entry or at most a 64th of maxEntries, and the store at most 64 or at most maxEntries |
| MemoryStore.RefusedIffFullOfLive | internal/siwe/nonce/memory.go:64-75 | a Put into a shard within capacity is accepted iff its unexpired entries leave room; when refused, every entry there is unexpired |
| MemoryStore.PutRefusedExactly | internal/siwe/nonce/memory.go:59-76 | at the end of any run, the next Put is refused iff its shard holds at least one entry, one more would exceed a 64th of maxEntries, and none of them is past its expiry |
| MemoryStore.MemoryConserves | internal/siwe/nonce/memory.go:59-93 | without fresh nonces: for each id of any run, the calls that redeemed it, plus one if it is still present, are no more than the calls that tried to put it, overwriting ones included |
| MemoryStore.Memory.constructor | internal/siwe/nonce/memory.go:41-48 | a new store is valid and all its shards are empty |
| MemoryStore.Memory.SweepLocked | internal/siwe/nonce/memory.go:113-120 | the loop over a shard leaves exactly its unexpired entries, and the other shards as they were |
| MemoryStore.Memory.Put | internal/siwe/nonce/memory.go:59-76 | the object's Put is the Put step of the run theorems, new state and answer, and keeps placement and capacity |
| MemoryStore.Memory.Consume | internal/siwe/nonce/memory.go:79-93 | the object's Consume is the Consume step: the entry goes whether or not it had expired |
| MemoryStore.Memory.JanitorRound | internal/siwe/nonce/memory.go:95-111 | one round, reading the clock per shard, is the run of 64 Sweep steps, and leaves each shard its unexpired entries |
| PostgresStore.PostgresConserves | internal/siwe/nonce/postgres.go:51-92 | conservation for the shared table, with calls that err before or after taking effect |
| PostgresStore.SharedTableMatchesMemory | internal/siwe/nonce/postgres.go:51-116 | on fresh nonces and without database errors, in every run with the clock in order: the table answers every call as the in-memory store does (a found challenge with its expiry rounded down) iff that store refuses no Put and no outstanding challenge is redeemed after its rounded and not after its exact expiry |
| PostgresStore.WholeMicrosecondsAgree | internal/siwe/nonce/postgres.go:51-116 | with whole-microsecond expiries the answers are equal in any such run iff no Put is refused |
| PostgresStore.RoundingGap | internal/siwe/nonce/schema.sql:5-11 | the two-call case, with readings in either order: one store finds the challenge and the other does not iff the redemption lies in that gap |
| PostgresStore.RoundingGapExample | internal/siwe/nonce/schema.sql:9 | an expiry of 1999 ns redeemed at 1500 ns is found in memory and not in the table |
| PostgresStore.Postgres.Put | internal/siwe/nonce/postgres.go:51-60 | a duplicate nonce is an error and never overwrites; the new table is the step's, faults included |
| PostgresStore.Postgres.Consume | internal/siwe/nonce/postgres.go:66-92 | delete-and-return then the expiry check is the Consume step, faults included |
| PostgresStore.Postgres.JanitorRound | internal/siwe/nonce/postgres.go:97-116 | the range delete is the sweep step and removes no unexpired row |
| SiweMessage.String | internal/siwe/message/message.go:34-48 | the pieces written one after another are the eleven lines of the standard, joined |
| SiweMessage.PrintedReads | internal/siwe/message/message.go:34-48 | a reader that follows the layout of EIP-4361, by place and label, finds each field of a message with one-line fields in its own place |
| SiweMessage.MessageInjective | internal/siwe/message/message.go:34-48 | messages with one-line fields and equal texts have equal domain, address, statement, URI, chain id and nonce, and times equal to the second |
| SiweMessage.TextFixesNonce | internal/siwe/server/handlers.go:123-149 | with nonces of one length, equal texts mean equal nonces and times whatever the domain, statement and URI contain, newlines included |
| SiweMessage.StampsCanBeFaithful | internal/siwe/message/message.go:45-46 | the assumption on timestamps is satisfiable by a fixed-width rendering |
| SignIn.StoreContract | internal/siwe/nonce/nonce.go:37-44 | all the protocol relies on, kept by both stores under every fault: an operation adds at most the challenge it puts, and a found challenge was stored, unexpired, and is gone |
| SignIn.NextKeepsInv | internal/siwe/server/handlers.go:95-236 | every atomic step of any replica keeps: stored challenges belong to validated unredeemed requests, redemptions to distinct requests within their lifetime, tokens to distinct valid redemptions |
| SignIn.AskExactly | internal/siwe/server/handlers.go:103-141 | a request is recorded iff its address parses and is not zero and every audience it wants is on the allow-list; nothing else changes |
| SignIn.EveryTokenTraced | internal/siwe/server/handlers.go:95-250 | in every run, with any replicas, faults and nonces: each token comes from a validated request, its signature was valid over that request's own text for its own address, redeemed within ChallengeTTL, its audience the default or the list bound then, each value of which is on that replica's allow-list; no two tokens share a request |
| SignIn.TokenIsTraced | internal/siwe/token/token.go:65-93 | any token of a good state carries the claims of its traced request: subject and address claim, audience, issue, not-before and expiry times |
| SignIn.TraceIsUnique | internal/siwe/server/handlers.go:123-236 | with fresh 64-character nonces no other request of the run has the token's nonce or its signed text |
| SignIn.SignedTextSays | internal/siwe/server/handlers.go:130-149 | a reader of the text signed for any token of a run finds the replica's domain, statement, URI and chain, the request's address and nonce, and its two times |
| SignIn.SignInCompletes | internal/siwe/server/handlers.go:95-236 | from any state, one sign-in with a nonce not in the store yields a token iff the request is admissible, the store has room, the redemption is in time and the signature valid then; the token is for that address, audience and moment |
| Encoding.BytesRoundTrip | internal/keyset/jwks.go:43-44 | minimal big-endian bytes read back as the integer (section 6.3.1 of RFC 7518) |
| Encoding.Base64RoundTrip | internal/keyset/jwks.go:58 | a strict reader of unpadded base64url, which refuses stray trailing bits, recovers the bytes (sections 3.5 and 5 of RFC 4648) |
| Encoding.EncodeExamples | internal/keyset/jwks.go:58 | vectors of section 10 of RFC 4648, without padding, and the two symbols of the URL alphabet |
| Encoding.IntegerRoundTrip | internal/keyset/jwks.go:43-44 | every modulus or exponent survives both encodings, which contain no quotation mark |
| Encoding.ExponentExample | internal/keyset/jwks.go:44 | the exponent 65537 is published as AQAB |
| Keys.PublishedKeyRoundTrips | internal/keyset/jwks.go:37-46 | a reader of the published JWK rebuilds the public key, for every modulus and exponent |
| Keys.CanonicalInjective | internal/keyset/jwks.go:51-56 | distinct keys have distinct thumbprint inputs (section 3 of RFC 7638) |
| Keys.CanonicalIsOfPublishedJwk | internal/keyset/jwks.go:37-56 | the thumbprint's input is the published key's own e, kty and n in that order, and the key is published for RS256 signatures under its id |
| Keys.ThumbprintHolds | internal/keyset/jwks.go:51-56 | a key id decodes to the hash of the canonical input (section 3 of RFC 7638) |
| Keys.AcceptableExactly | internal/keyset/keyset.go:42-48 | a PEM is acceptable iff it is readable and its modulus is at least 2 to the 2047 |
| Keys.Load | internal/keyset/keyset.go:35-57 | success returns each key in order under its thumbprint, none twice; failure names the first bad PEM and its fault, and then no key list meets that description |
| Keys.LoadRejectsExactlyRepeats | internal/keyset/keyset.go:41-55 | among acceptable keys whose canonical inputs do not collide under the hash, a list can be loaded iff it repeats no key |
| Keys.Jwks | internal/keyset/jwks.go:29-35 | the published set is every loaded key's public half, in order |
| Keys.ResolvesListedKey | internal/keyset/keyset.go:59-69 | looking up a listed key's id in the published set gives that key |
| Keys.ResolvedIsListed | internal/keyset/jwks.go:29-46 | whatever an id resolves to is a listed key with that id |
| Rotation.OverlapSuffices | internal/oidc/wellknown.go:86-92 | if a signing key is listed by all that serves from a cache window before it signs until its last token expires, every unexpired token verifies against the current key set and against any copy within the window |
| Rotation.OverlapNeeded | internal/oidc/wellknown.go:86-92 | a serving period in that span without the key breaks some unexpired token |
| Rotation.RotationIsSafeIffOverlapping | README.md:207-216 | for every deployment plan, rolling or not: all unexpired tokens stay verifiable iff the plan overlaps |
| Rotation.ProcedureIsSafeIffWaits | README.md:209-216 | the four documented stages are safe iff the waits are at least the cache window and the token lifetime |
| CloudEvents.CloudEventAgreements.Add | internal/exchange/autheval/agreements.go:14-22 | appends one agreement, missing ids and tags standing for all, type and source as given |
| CloudEvents.MadeCoversItsFields | internal/exchange/autheval/agreements.go:14-22 | the agreement added covers an event iff its type, source, ids and tags as given describe it, missing ids or tags describing everything |
| CloudEvents.AddDefaultIdentifiers | internal/exchange/controllers/httpcontroller/exchange.go:170-186 | every filter of the slice is defaulted in place |
| CloudEvents.EvaluateCloudEvents | internal/exchange/autheval/autheval.go:50-80 | the joined error lists exactly the ungranted combinations, in order |
| CloudEvents.LacksListed | internal/exchange/autheval/autheval.go:70-77 | the report lists a combination iff a filter asks for it and no agreement grants it |
| CloudEvents.LacksGathered | internal/exchange/autheval/autheval.go:52-78 | the report gathers what each filter lacks, in the order of the filters |
| CloudEvents.Soundness | internal/exchange/autheval/autheval.go:70-77 | when a filter's combinations are granted, every event it asks for is covered by an agreement |
| CloudEvents.Completeness | internal/exchange/autheval/agreements.go:24-40 | when all the events a filter asks for are covered, each of its combinations is granted, by a string no agreement mentions |
| CloudEvents.CheckIsCoverage | internal/exchange/autheval/autheval.go:50-80 | the check passes iff every concrete (type, source, id, tag) asked for is covered by some agreement, possibly several between them |
| CloudEvents.DefaultingIdempotent | internal/exchange/controllers/httpcontroller/exchange.go:170-186 | defaulting twice is defaulting once |
| CloudEvents.DefaultingKeepsMeaning | internal/exchange/controllers/httpcontroller/exchange.go:170-186 | a defaulted filter omits nothing and asks for the same events; a filter that omits nothing is left alone |
| CloudEvents.DefaultingKeepsVerdict | internal/exchange/autheval/autheval.go:53-68 | defaulting the filters beforehand does not change the verdict |
| CloudEvents.MoreAgreementsGrantMore | internal/exchange/autheval/agreements.go:24-40 | what some agreements grant, any list containing them grants |
| CloudEvents.NamelessChangesNothing | internal/exchange/autheval/agreements.go:14-40 | agreements without a type or a source change no verdict, whatever is requested |
| CloudEvents.GrantsItsOwnWording | internal/exchange/autheval/agreements.go:14-40 | an agreement grants the request written like it iff its type and its source are not empty |
| CloudEvents.NamelessExample | internal/exchange/autheval/autheval.go:53-60 | an agreement to every event of no type refuses the very request it was written for |
| Grants.UserGrantMap | internal/exchange/autheval/autheval.go:135-187 | the loop, stopping at the first agreement in its window for another asset, computes the fold over its clock readings and then the template gate |
| Grants.OutOfWindowIsAbsent | internal/exchange/autheval/autheval.go:146-152 | an agreement read before its start or after its expiry can be removed without changing the outcome |
| Grants.OutOfWindowExample | internal/exchange/autheval/autheval.go:146-152 | an agreement that expired at 10 gives nothing at 20, nor does one that starts at 30 |
| Grants.CollectIsDeclarative | internal/exchange/autheval/autheval.go:144-167 | it errs iff an agreement in force names another asset; otherwise it collects exactly the union of permissions and the set of cloud-event agreements in force |
| Grants.EvaluatePermissions | internal/exchange/autheval/autheval.go:21-33 | the missing names in order; none iff all are granted |
| Grants.MissingKept | internal/exchange/autheval/autheval.go:25-31 | the missing names are the requested ones not granted, each as often and in the order requested |
| Grants.PassesExactly | internal/exchange/autheval/autheval.go:113-187 | a document passes iff no agreement in its window names another asset, the template if any can be read, every event asked for is described by the fields of a cloud-event agreement in its window, and each permission is in the union of those in their window, which the template lets through all or nothing |
| Grants.NoOtherAsset | internal/exchange/autheval/autheval.go:154-156 | at one instant the asset test is exactly that every effective agreement names the asset |
| Grants.OrderAndRepetitionIrrelevant | internal/exchange/autheval/autheval.go:143-187 | at one instant acceptance depends only on which agreements occur |
| Grants.MoreAgreementsNeverWorse | internal/exchange/autheval/autheval.go:113-187 | adding agreements for the same asset never turns a passing document into a failing one, template or not |
| Grants.PassesSomethingExactly | internal/exchange/autheval/autheval.go:135-187 | some request that asks for something passes iff no agreement in force names another asset, the template can be read, and a cloud-event agreement with a type and a source is in force or permissions are and get past the template |
| Grants.OwnWindowKeptExactly | internal/exchange/models/permission_record.go:21-29 | passing, for every request that asks for something, implies being inside the document's own window iff the document is inside it or gives nothing at that moment |
| Grants.NestedWindowsKept | internal/exchange/autheval/autheval.go:144-156 | when no agreement is in force outside the document's own window, an accepted document is inside it |
| Grants.ExpiredDocumentPasses | internal/exchange/services/access/access.go:125-182 | a document that expired at 10 passes at 20 on an agreement that never expires |
| Bits.IntArrayTo2BitArray | internal/exchange/autheval/autheval.go:190-202 | for every int64 list and length: errs exactly on an out-of-range index, panics exactly on one of 2^62 or more (its double overflows), whichever comes first; otherwise bit k is set iff k/2 is listed, in any order and number, and the mask is below 4^length |
| Bits.BitOfSetBit | internal/exchange/autheval/autheval.go:197-198 | setting a bit sets that bit and no other |
| Bits.BitOfAnd | internal/exchange/services/sacdproxy/sacdproxy.go:119 | a bit of the conjunction is the conjunction of the bits |
| Bits.MaskUnique | internal/exchange/autheval/autheval.go:190-202 | the bits determine the mask, so order and repetition do not matter |
| Bits.MaskBound | internal/exchange/autheval/autheval.go:190-202 | a mask of indices below length is below 4^length |
| Bits.MasksFitAWord | internal/exchange/services/access/access.go:226 | at length 128 a mask is below 2^256 |
| Bits.EvaluatePermissionsBits | internal/exchange/autheval/autheval.go:37-47 | the lacking privileges in order; none iff each has both bits |
| Bits.LackingBitsKept | internal/exchange/autheval/autheval.go:40-44 | the lacking privileges are those with a bit clear, each as often and in the order asked |
| Bits.LacksNothingIffMaskHeld | internal/exchange/autheval/autheval.go:37-47 | nothing is lacking iff the permissions contain the whole mask of the privileges |
| Bits.BitIsBinaryDigit | internal/exchange/autheval/autheval.go:41 | bit k is the k-th binary digit of the integer |
| Bits.MaskingLosesNothing | internal/exchange/services/sacdproxy/sacdproxy.go:96-124 | checking against (granted AND mask) gives the same ordered lacks as against granted, and the owner's mask lacks none |
| Privileges.Invert | pkg/tokenclaims/permissions.go:38-44 | the start-up loop builds the inverse table, whatever order the map is walked in |
| Privileges.TablesAreInjective | pkg/tokenclaims/permissions.go:26-53 | neither table repeats a name |
| Privileges.TablesAreDisjoint | pkg/tokenclaims/permissions.go:26-53 | no name is in both tables |
| Privileges.PermissionsFromPrivileges | internal/exchange/controllers/httpcontroller/exchange.go:188-213 | succeeds iff every id is known, and then names each; otherwise lists the unknown ids in order |
| Privileges.UnknownKept | internal/exchange/controllers/httpcontroller/exchange.go:194-203 | the unknown ids reported are those not in the table, each as often and in the order given |
| Privileges.IDsFromPermissions | internal/exchange/services/access/access.go:189-200 | succeeds iff every name has an id; otherwise lists the others in order |
| Privileges.MissingKept | internal/exchange/services/access/access.go:190-197 | the names reported are those without an id, each as often and in the order given |
| Privileges.PrivilegeRoundTrip | pkg/tokenclaims/permissions.go:26-61 | ids to names and back through the same table's inverse is the identity |
| Privileges.FillIDs | internal/exchange/services/signer.go:46-51 | the slice filled by index holds each name's id, zero where it has none |
| Privileges.MintedIDsOfLegacyRequest | internal/exchange/services/signer.go:45-51 | vehicle ids come back as requested; manufacturer ids all come back as zero |
| Template.ExtractPermissions | internal/exchange/services/template/template.go:160-181 | the loop collects exactly the permissions of permission agreements for the contract |
| Template.EthrDidInjective | internal/exchange/services/template/template.go:163-164 | the form templates name a contract in tells it from every other, on any chain |
| Template.FetchedIsSigned | internal/exchange/services/template/template.go:69-116 | agreements can be fetched iff they are those of the template's document with a valid owner signature |
| Template.TemplateService.GetTemplatePermissions | internal/exchange/services/template/template.go:60-124 | answers from the cached agreements when there are some, otherwise as without a cache; caches exactly what a successful fetch returned |
| Template.FetchedOnce | internal/exchange/services/template/template.go:61-66 | after a successful fetch the next call needs none, whatever the backends have become |
| Template.TemplateService.PermissionsAndStatus | internal/exchange/services/template/template.go:127-158 | the status is read in this very call, unless there are no permissions |
| Template.TemplateService.ClearCache | internal/exchange/services/template/template.go:184-188 | empties the cache |
| Template.CacheHoldsOnlySignedAgreements | internal/exchange/services/template/template.go:60-124 | in every interleaving, with backends free to change: each cached entry was fetched by a step of the run, for a call that had missed the cache under that id, from a document whose owner's signature that step's backend validated; each answer comes from agreements so fetched earlier, with the status read in the answering step |
| Template.UninterruptedCall | internal/exchange/services/template/template.go:60-158 | from any state, the five steps of a call with nothing in between give the reply and the cache of `GetTemplatePermissions` |
| Template.CacheIsTransparent | internal/exchange/services/template/template.go:60-188 | with stable backends each call of every interleaving of lookups, fetches, writes and clears, errors included, gets the uncached answer, for any spelling of the number |
| TemplateGate.TemplatedDocumentExactly | internal/exchange/autheval/autheval.go:169-181 | a document whose template is answered by the caching service amid any other calls passes iff the signed template and its status are readable, all events are covered, and permissions, if asked for, are granted with the template active, non-empty for the contract and wholly granted |
| Access.ConvertTokenID | internal/exchange/services/sacdproxy/sacdproxy.go:128-149 | accepted iff positive and at most 2^31-1, and then unchanged |
| Access.ValidateAccessViaRecord | internal/exchange/services/access/access.go:184-260 | the loops and the mask compute the record decision; building the mask never fails |
| Access.DocumentPathExactly | internal/exchange/services/access/access.go:98-182 | succeeds iff the record of the account, chain token or vehicle names a source whose document is found, names this grantee in its checksummed form, verifies, covers every event and grants every permission |
| Access.RefusalsExactly | internal/exchange/services/access/access.go:125-182 | a readable document is refused for the first reason that applies: another grantee, a signature not checkable or not valid, an agreement for another asset or an unreadable template, an event not covered, a permission not granted |
| Access.RecordPathExactly | internal/exchange/services/access/access.go:184-260 | succeeds iff every name has an id in the asset's table and the permissions read, from the account, chain token or vehicle, with the mask of those ids hold the whole mask |
| Access.AccessExactly | internal/exchange/services/access/access.go:84-96 | access is granted iff the document grants all, or no events are asked for and the record grants all; with event filters the record never decides |
| Access.VehicleRecordExactly | internal/exchange/services/sacdproxy/sacdproxy.go:96-124 | for a vehicle the record grants exactly to the owner, to a grantee whose own permissions hold the mask, and, where the vehicle or the grant is missing, to whoever asks for nothing |
| Access.LegacyIDsBuildMask | internal/exchange/services/access/access.go:184-226 | the names of a legacy request lead back to the very ids it listed |
| Access.DefaultingKeepsDecision | internal/exchange/controllers/httpcontroller/exchange.go:110-122 | defaulting the filters before the decision changes no decision |
| Exchange.SignPrivilegePayload | internal/exchange/services/signer.go:45-91 | the slices filled by index give the claims of the checked request |
| Exchange.ExchangeToken | internal/exchange/controllers/httpcontroller/exchange.go:92-233 | license, request, emptiness, defaulting, decision, minting in that order; filters are defaulted in place exactly when the decision is reached; a minted token is for the licensed caller, about the asset the DID or the contract and token id of the request give, with the permissions named or those of the legacy ids, and the caller passed the decision for exactly that and the defaulted events |
| Exchange.RefusalsExactly | internal/exchange/controllers/httpcontroller/exchange.go:92-119 | a request is turned away for the first reason that applies: no address, a license that cannot be looked up or is missing, no asset, an unknown privilege, nothing asked for; then only the decision can refuse it |
| Exchange.UnknownReported | internal/exchange/controllers/httpcontroller/exchange.go:193-211 | the ids reported as unknown are those not in the table of the asset's contract, in order |
| Exchange.LegacyIDsInToken | internal/exchange/services/signer.go:45-51 | a legacy request's token repeats its ids, or zeros for a manufacturer asset |
| Exchange.UnknownPrivilegeRejects | internal/exchange/controllers/httpcontroller/exchange.go:188-213 | a legacy request is readable iff every id is known for its contract |
| Exchange.AccessCheck | internal/exchange/controllers/rpc/rpc.go:30-76 | decoding, the loop over events and the empty-grantee test give the gRPC reply |
| Exchange.RpcVerdict | internal/exchange/controllers/rpc/rpc.go:30-76 | gRPC fails exactly without an asset or a grantee, and otherwise answers with the decision and its error |
| Exchange.HttpVerdict | internal/exchange/controllers/httpcontroller/exchange.go:92-124 | for a licensed caller, HTTP mints iff the request is about an asset and asks for names, from permissions or legacy ids, something is asked for, and access is granted on the defaulted filters |
| Exchange.SurfacesAgree | internal/exchange/controllers/rpc/rpc.go:30-53 | on requests without tags HTTP mints iff gRPC says the caller has access to the permissions named, legacy ids counting as theirs, and something was asked for |
| EndToEnd.NextKeepsInv | internal/exchange/api/handlers.go:22-36 | every step of either surface keeps each minted token backed by an issued sign-in token that was unexpired then |
| EndToEnd.BearerIsServed | internal/exchange/middleware/valid_dev_license.go:32-68 | the bearer of an issued, unexpired sign-in token with a developer license gets a permission token iff the address behind it may have what is asked |
| EndToEnd.EveryPermissionTokenProven | internal/exchange/controllers/httpcontroller/exchange.go:92-149 | in every run of both surfaces each permission token's subject redeemed a challenge earlier in the run with a valid signature and passed the access decision for what the token carries |

## Left out

- HTTP and gRPC servers, routing, body limits, rate limits, request decoding, status codes and error texts: plumbing.
- Networking and JSON decoding of IPFS, identity-api and the chain: oracles that return a value or a failure.
- ECDSA recovery, EIP-1271 calls, RSA signing, PEM and X.509 parsing and SHA-256: left open, as described above.
- RFC 3339 calendar arithmetic and EIP-55 capitals from Keccak: left open; the proofs hold for any.
- DID decoding and printing (library code): a DID is a datatype, and its printed form a function of it.
- `GetValidAgreements`: it has no caller here and only merges two maps.
- Logging, metrics and configuration parsing: no effect on decisions.
- Failures of the signing call after a decision, and the random `jti` of each token: a failed signature mints nothing.
- Rounding of claim times to whole seconds by the JWT library: claims carry the clock reading itself.
- Conversion by gRPC of a grantee string that is not an address: the model starts from the converted address.
- Runs start with an empty challenge table; rows a database holds from before are not part of a run.
- The key set is a value: nothing in the source changes it after loading.
- The three nested loops of the cloud-event check are three methods here, one loop each.
- Each outside source gives one answer within one access decision, except identity-api, which may answer its two questions differently.
- SignIn.SignedTextSays: says nothing of a replica whose configured domain, statement or URI breaks a line, because no reader by lines could tell its fields apart.
- Keys.LoadRejectsExactlyRepeats: assumes the canonical inputs of the listed keys do not collide under the hash, because SHA-256 is left open.
- SignIn.TraceIsUnique: assumes fresh nonces and readings within the range RFC 3339 writes in twenty characters.
- EndToEnd.EveryPermissionTokenProven: a bearer token that verifies was issued in the run (unforgeable signatures, and sign-in keys that sign nothing else), and one exchange call is one step at one clock reading.
