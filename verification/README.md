# DNS-AID core: a verified model

DNS-AID publishes agents in DNS and discovers them from there: SVCB and TXT records, an index record, an
HTTP catalog, signatures checked against key sets fetched over HTTPS. This project models the stateful and
branching parts of that library and proves what they are for.

- **Key-set fetching** (`RefetchBudget`, `JwksEngine`, `JwksLocks`, `JwksSafety`, `JwksBatches`, `JwksRace`,
  `JwksAnswers`, `JwksTables`): two caches, a table of per-zone locks that evicts, and a budget of forced refetches, shared
  by coroutines that interleave between awaits. Every run of calls, lock hand-overs, replies, refetches and
  cancellations is covered; a released lock stays unlocked until the waiter it woke runs.
- **Verdicts and signatures** (`Verdict`, `Digest`, `Base64Url`, `Jws`, `SignatureStatus`): which verdict a
  key set yields, the canonical encoding that is signed, compact JWS down to the octets, and the stamp left
  on each record.
- **Parsers and printers** (`Text`, `Utf8`, `TxtCodec`, `IndexText`, `Fqdn`, `DcvWire`).
- **Catalogs and trust** (`ArdCatalog`, `ArdEntries`, `HostNames`, `OffDomain`): the budgeted walk over a nested catalog, and why a
  record from another domain may be shown.
- **Protocols over a zone** (`ZoneStore`, `AgentParams`, `Publishing`, `AgentIndex`, `IndexSync`, `PublishedIndex`,
  `CloudflareWrites`, `AkamaiRequests`, `Dcv`): a backend may do as asked, mask a deletion, raise, raise after
  having done as asked, or break off a listing.
- **Circuit breaker** (`CircuitBreaker`).

`Wrappers`, `OrderedDict` and `Ordering` hold the optional value, insertion-ordered dictionaries and
canonical sorting.

Foreign calls are parameters: ECDSA, SHA-256, general JSON and ISO dates come with the laws they are used
under (a signature verifies under its own key; what is dumped is parsed back), and every network answer,
clock reading and failure is arbitrary.

Where the code does not do what its documentation says, the code is modelled and the exact condition is
proved:

- Records of a catalog labelled as bound to the queried domain by TLS are documented as served by it. A label
  can only be wrong if a well-known location redirects or the pointer's target name holds a delimiter that
  ends the host inside a URL (`OffDomain.ServedTrust`). What a location answers first settles it: its agents
  are sure to come from the domain exactly when it does not redirect to another URL than itself and those
  tried before it (`OffDomain.LabelRightExactly`, `OffDomain.FirstAnswerDecides`,
  `OffDomain.RedirectLeadsElsewhere`). And so does what stands in front of the domain in a target name
  (`OffDomain.TargetTestIsRightExactly`, `OffDomain.DelimitedExample`).
- A zone's lock is documented never to be evicted in a way that loses one fetch per zone: eviction asks
  whether a lock is locked, and one whose woken waiter has not run yet is not. One fetch per zone is kept in
  every run that calls for at most 512 different zones, and for no larger number
  (`JwksRace.SingleFlightUpToExactly`, `JwksRace.RaceExample`). Sparing awaited locks as well would keep it
  always (`JwksRace.SingleFlightExactly`).
- One malformed catalog entry is documented to cost only itself: an unhashable `type`, or a description that
  is a number, `true` or an object of more than 1024 members, loses the whole catalog
  (`ArdCatalog.ReadFailsExactly`, `ArdCatalog.CatalogLostExactly`, `ArdCatalog.BreakingExamples`).
- Verifying a domain challenge is documented to pass over records with a malformed expiry or another domain:
  octets that are not UTF-8, text that is not ASCII on either side of a comparison and an expiry without a
  time zone raise instead, so
  the order of the records matters exactly when one would verify and another raises (`Dcv.RaisesExactly`,
  `Dcv.OrderMattersExactly`, `Dcv.OrderExample`). A binding with white space or outside ASCII is accepted
  for placing but not honoured (`Dcv.BindingHonouredExactly`).
- Unpublishing is documented never to report success while the agent is still live: it does exactly when
  both primary records existed and one of the two deletions was masked (`Publishing.SuccessWithSurvivor`,
  `Publishing.SurvivorExample`).
- An index update whose listing does not get as far as the index starts from nothing and still succeeds
  (`AgentIndex.UpdateKeepsExactly`, `AgentIndex.LostExample`); another owner whose name contains the index
  name can be read in its place (`AgentIndex.StoredIsReadExactly`, `AgentIndex.ShadowedExample`).
- Syncing twice is still only if every protocol is in lower case, not just every owner name, and the text
  does not lose its end to quote stripping (`IndexSync.SecondSyncIsStill`, `IndexSync.UpperCaseTokenExample`).
- The indexer looks for an agent's `bap` under that name only. It is written under `key65402` unless string
  keys are switched on, and as TXT where it is demoted; then the index lists the agent under its `alpn`
  protocol (`PublishedIndex.ProtocolKeptExactly`, `PublishedIndex.OverlookedExample`).
- A stored TXT value that ends in a double quote does not read back from Akamai (`TxtCodec.ReadBackExactly`).
- A record with an empty signature ends without a status (`SignatureStatus.EveryRecordIsAccountedFor`).
- A key id is documented as a hint: it changes the verdict in exactly one situation, when keys of that name
  are usable and all reject while another key of the document does not (`Verdict.KidIsAHint`,
  `Verdict.MisleadingKidExample`).

## Model

| member | source | states |
|---|---|---|
| RefetchBudget.ReserveKeeps | src/dns_aid/core/jwks.py:1065-1080 | One reservation attempt on the budget table, granted or not, keeps the whole budget invariant: recency order, the 512-entry bound, and the spacing of reservations. |
| RefetchBudget.GrantedExactly | src/dns_aid/core/jwks.py:1065-1080 | A forced refetch is refused exactly when the zone was reserved less than 3600 s ago and fewer than 512 other zones since. |
| JwksSafety.RefetchesAreSpaced | src/dns_aid/core/jwks.py:1065-1099 | After any run, two forced refetches of one normalised zone less than 3600 s apart have at least 512 distinct other zones reserved between them, and the table never exceeds 512 entries. |
| JwksLocks.StepKeepsLocks | src/dns_aid/core/jwks.py:212-233 | Every step keeps the lock discipline: whoever waits or fetches is in the queue of a lock made for its zone or holds it, and that is the table's lock unless the zone's lock was evicted while awaited. |
| JwksSafety.SingleFlight | src/dns_aid/core/jwks.py:767-843 | After any run, at most one coroutine per normalised zone is fetching, unless the zone's lock was evicted between its release and the run of a waiter; `JwksRace.SingleFlightUpToExactly` says when that cannot happen. |
| JwksRace.RaceExample | src/dns_aid/core/jwks.py:219-233 | A run of the code as written, with 512 zones in flight, after which two coroutines fetch one zone; it calls for 513 zones. |
| JwksRace.SingleFlightUpToExactly | src/dns_aid/core/jwks.py:212-233 | One fetch per zone at any time in every run that calls for at most n different zones, exactly when n is at most 512, the size of the lock table. |
| JwksSafety.ReturnedFromOwnZone | src/dns_aid/core/jwks.py:135-147 | After any run, every document returned was served by one of the two candidate URLs of the caller's own zone, letter case aside. |
| JwksSafety.ReturnedUnexpired | src/dns_aid/core/jwks.py:767-850 | A returned document arrived in that very step or is in the cache, unexpired at that moment. |
| JwksBatches.StartsOnlyWhenNeeded | src/dns_aid/core/jwks.py:784-815 | A fetch starts only when no valid success or failure is on record for the zone and, unless the zone's lock was lost, nobody is fetching it. |
| JwksBatches.FetchLeavesRecord | src/dns_aid/core/jwks.py:815-850 | A fetch under way continues, is cancelled, or leaves its outcome, success or failure, on record. |
| JwksBatches.OneAttemptPerBatch | src/dns_aid/core/jwks.py:767-843 | From a zone nobody is at, any number of interleaved callers cost at most one fetch attempt while no fetch of the zone is cancelled and what is on record neither lapses nor is evicted, whatever locks are evicted. |
| JwksLocks.StepAside | src/dns_aid/core/jwks.py:1065-1099 | Only an unmatched key id spends budget, and no step moves another coroutine. |
| JwksLocks.RoomMade | src/dns_aid/core/jwks.py:219-233 | A lock table with room keeps every row; a full one keeps 511, unless more than that are in use. |
| JwksTables.Tables.StoreDocument | src/dns_aid/core/jwks.py:846-850 | The cache dictionary changes as the engine's cache does: oldest entries out, new entry in. |
| JwksTables.Tables.StoreFailure | src/dns_aid/core/jwks.py:836-842 | The negative cache changes as the engine's does. |
| JwksTables.Tables.SpendRefetch | src/dns_aid/core/jwks.py:1065-1080 | Check and stamp in one step, with the answer and the table the budget prescribes. |
| JwksTables.Tables.EvictStale | src/dns_aid/core/jwks.py:219-233 | The eviction loop over a snapshot removes the oldest unheld locks, and only those, until there is room. |
| JwksTables.Tables.InflightLock | src/dns_aid/core/jwks.py:212-233 | Returns the table's lock for the zone, or a new one stored under it. |
| JwksAnswers.CallAnswers | src/dns_aid/core/jwks.py:767-815 | After any run, a call is answered with the document of an unexpired cache entry; otherwise it waits unless the zone's lock is free, and then is told None while a failure on record has not expired, or asks. Expired entries are dropped. |
| JwksAnswers.GrantedAnswers | src/dns_aid/core/jwks.py:788-815 | The same for a waiter that is given the lock, about the domain of its own last call. |
| JwksAnswers.CallWaitsLast | src/dns_aid/core/jwks.py:788-789 | A call that has to wait is last in the queue of its lock. |
| JwksAnswers.GrantedWasFirst | src/dns_aid/core/jwks.py:788-789 | Whoever is given a lock was first in its queue. |
| JwksAnswers.AskedInOrder | src/dns_aid/core/jwks.py:135-147 | After any run, a coroutine that no location has turned down since its call asks the derived host, after one refusal the apex, and never more. |
| JwksAnswers.ReplyAnswers | src/dns_aid/core/jwks.py:808-843 | A document that is served ends the call with it and is cached for 3600 s; a first refusal leads to the second location and a second to None, on record for 30 s. |
| JwksAnswers.RefetchAnswers | src/dns_aid/core/jwks.py:853-877 | A forced refetch likewise, but only a document with keys is cached and a failure is not put on record. |
| JwksAnswers.UnmatchedAnswers | src/dns_aid/core/jwks.py:1056-1084 | After any run, an unmatched key id starts a refetch, and is put on record, exactly unless the zone's budget is spent. |
| JwksAnswers.StoringKeepsOthers | src/dns_aid/core/jwks.py:836-850 | Both caches hold at most 512 zones, and storing an outcome costs no other zone its entry but the oldest of a full cache. |
| JwksAnswers.NoneMeans | src/dns_aid/core/jwks.py:767-843 | Over any run, a call ends with None only because an unexpired failure was on record in that step or because both locations, one after the other, have just turned it down. |
| Verdict.VerifyAgainst | src/dns_aid/core/jwks.py:1143-1180 | The candidate loop with its flags returns the first accepting or lapsed candidate's answer, a rejection if a key was usable, and nothing if none was. |
| Verdict.VerifyRecord | src/dns_aid/core/jwks.py:1010-1140 | The whole decision: cached document, by key id, then all keys, then at most one refetch. |
| Verdict.AgainstOutcome | src/dns_aid/core/jwks.py:1143-1180 | The loop's outcome characterised by the set of usable keys: nothing iff the set is empty, a positive answer is some key's own, a rejection means all reject. |
| Verdict.NoKeyExactly | src/dns_aid/core/jwks.py:1041-1140 | NO_KEY is reported exactly when no consulted document holds an importable key. |
| Verdict.PositiveIsSound | src/dns_aid/core/jwks.py:1041-1140 | VERIFIED or EXPIRED is the conclusion of some key in a consulted document. |
| Verdict.VerdictUnordered | src/dns_aid/core/jwks.py:1041-1140 | Permuting the cached or the refetched key set does not change the verdict. |
| Verdict.BudgetIrrelevant | src/dns_aid/core/jwks.py:1056-1099 | If the refetch would fail or return the same document, a spent budget changes no verdict. |
| Verdict.KidIsAHint | src/dns_aid/core/jwks.py:954-979 | Without a refetch, naming a key id changes the verdict in exactly one situation (section 4.1.4 of RFC 7515). |
| Verdict.MisleadingKidExample | src/dns_aid/core/jwks.py:1041-1060 | A set of two keys and a signature for which it does: invalid by its key id, verified without one. |
| Verdict.DocumentDecides | src/dns_aid/core/jwks.py:1041-1056 | Unless the cached document leaves it open (a key id, no usable key of that name and no key that does not reject) and there are budget and a refetched document, the verdict is what its keys of that name say, or all its keys if none of that name is usable. |
| Verdict.RefetchDecides | src/dns_aid/core/jwks.py:1056-1140 | Where it leaves it open and there is budget, the verdict is what the refetched document says in the same way; but where that has no usable key and the cached one has, it is INVALID. |
| Verdict.RefetchMattersExactly | src/dns_aid/core/jwks.py:1056-1140 | What is refetched makes a difference exactly if there is budget, the cached document leaves it open, and some key would not reject or the cached document has no usable key. |
| Verdict.RolloverExample | src/dns_aid/core/jwks.py:1084-1099 | After a key rollover: verified with a refetch, invalid without. |
| Digest.RawExactly | src/dns_aid/core/jwks.py:280-303 | Two parameter lists have one canonical encoding exactly when they say the same: injective, and independent of order (string escapes per section 7 of RFC 8259). |
| Digest.JsonMembersInjective | src/dns_aid/core/jwks.py:300-302 | No member list can be mistaken for another once written out as JSON. |
| Digest.JsonReadsBack | src/dns_aid/core/jwks.py:299-303 | A reader of JSON strings gets every text back from its escaped form. |
| Digest.EncodingExample | src/dns_aid/core/jwks.py:299-303 | The octets that are hashed for a record with two parameters: prefix, sorted keys, no white space, nothing for what is absent. |
| Digest.RawBindsFields | src/dns_aid/core/jwks.py:306-323 | Two records are encoded alike exactly when they carry the same non-empty signed fields. |
| Digest.NormaliseThenSign | src/dns_aid/core/publisher.py:298-326 | Signing the normalised record is signing what the verifier reads back, for every argument; signing the arguments themselves is so exactly when the connect class was in normal form. |
| Digest.DigestBindsFields | src/dns_aid/core/jwks.py:306-323 | Equal fields give equal digests, and if different fields do, their two encodings are a collision of the hash. |
| Digest.EmptyIsNotAbsent | src/dns_aid/core/jwks.py:300-302 | The encoding itself tells an empty value from an absent one; only reading a record identifies them. |
| Base64Url.DecodeEncodeBytes | src/dns_aid/core/jwks.py:1183-1206 | Decoding with restored padding inverts encoding without it (section 5 of RFC 4648). |
| Base64Url.EncodedAlphabet | src/dns_aid/core/jwks.py:1188-1190 | An encoding holds no dot and only ASCII characters. |
| Base64Url.EncodeExample | src/dns_aid/core/jwks.py:1183-1190 | A vector of section 10 of RFC 4648, and the two symbols of the URL-safe alphabet. |
| Base64Url.AlphabetsAgree | src/dns_aid/core/jwks.py:1193-1206 | The decoder takes plain base64 too and passes over characters of neither alphabet. |
| Jws.SignaturePartsOfRaw | src/dns_aid/core/jwks.py:1209-1226 | The 32-byte R and S of a raw signature are recovered (section 3.4 of RFC 7518). |
| Jws.SignThenVerify | src/dns_aid/core/jwks.py:560-718 | Every signed payload, with or without a digest and a key id, comes back as itself: VERIFIED if its expiry has not passed, EXPIRED otherwise. |
| Jws.AcceptedMeans | src/dns_aid/core/jwks.py:624-718 | Acceptance means that the key verifies the signed octets and the expiry has not passed. |
| Jws.AcceptedExactly | src/dns_aid/core/jwks.py:624-718 | A token is accepted with a payload exactly if it has three parts, the header declares ES256, R and S of the third verify over the first two, the payload has all six claims, and its expiry has not passed. |
| Jws.LapsedExactly | src/dns_aid/core/jwks.py:671-690 | It has lapsed exactly if it verifies and its expiry, zero where there is none, has passed, whatever other claims are missing. |
| Jws.RawOctets | src/dns_aid/core/jwks.py:1209-1226 | Octet for octet: R, then S, most significant first. |
| Jws.ChecksAreUniform | src/dns_aid/core/jwks.py:624-718 | Keys that do not reject a signature say the same about it. |
| Jws.PublishedKeyVerifies | src/dns_aid/core/jwks.py:1010-1140 | A signature whose key is in the published set is verified or expired whatever else the set holds, whatever the budget and the refetch. |
| Jws.RolledOverKeyVerifies | src/dns_aid/core/jwks.py:1056-1099 | So is one whose key is only in the refetched set, if there is budget and the cached set has no usable key of its name, whatever else either set holds. |
| SignatureStatus.AgentRecord.Stamp | src/dns_aid/core/discoverer.py:2096-2250 | The fields written after a verification returns or raises: verified, status, covered parameters, expiry and algorithm. |
| SignatureStatus.VerifiedStamp | src/dns_aid/core/discoverer.py:2096-2225 | All five fields for a verified payload: unknown if its digest cannot be compared, unbound if endpoint or digest differ, else verified, with parameters or for the endpoint alone. |
| SignatureStatus.OtherStamps | src/dns_aid/core/discoverer.py:2180-2250 | All five fields for an exception and for the three other verdicts. |
| SignatureStatus.EveryRecordIsAccountedFor | src/dns_aid/core/discoverer.py:2076-2294 | After any interleaving and any budget cut-off a record has a status iff its signature is not the empty string; boolean and status agree in both directions, covered parameters imply matching endpoint fields and digest, and an algorithm is shown only for a verified record; which status each record has is stated by how its own task ended. |
| SignatureStatus.OrderDoesNotMatter | src/dns_aid/core/discoverer.py:2253-2294 | A record's final fields depend on how its own task ended, not on the interleaving. |
| SignatureStatus.SignedRecordIsStampedVerified | src/dns_aid/core/discoverer.py:2096-2250 | End to end: a record signed by its publisher is stamped verified with parameters covered until expiry, and expired afterwards. |
| TxtCodec.ParseTxtContent | src/dns_aid/backends/cloudflare.py:57-132 | The cursor loop computes the recursive tokenizer. |
| TxtCodec.PrintedReadsBack | src/dns_aid/backends/cloudflare.py:57-132 | Tokens printed with any mixture of plain characters, backslash escapes and \DDD octets, separated by any white space, read back as the decoded octets (section 5.1 of RFC 1035). |
| TxtCodec.BareReadsBack | src/dns_aid/backends/cloudflare.py:57-132 | So does a token printed without quotation marks, up to white space. |
| TxtCodec.TxtRoundTrip | src/dns_aid/backends/cloudflare.py:38-54 | What the quoting writer produces for any list of strings is read back as that list. |
| TxtCodec.UnescapeCharString | src/dns_aid/backends/akamai_edgedns.py:404-418 | The index loop computes the recursive unescaping. |
| TxtCodec.UnescapeInvertsEscape | src/dns_aid/backends/akamai_edgedns.py:394-418 | Unescaping inverts escaping on all strings. |
| TxtCodec.ReadBackExactly | src/dns_aid/backends/akamai_edgedns.py:670 | Read-back through quote stripping is the identity exactly on values that do not end in a double quote. |
| ArdCatalog.ParseState.ParseInto | src/dns_aid/core/http_index.py:521-571 | The recursive method over shared counters, agent list and skip counts computes the budgeted walk. |
| ArdCatalog.ParseCatalog | src/dns_aid/core/http_index.py:482-518 | A parse raises exactly when a breaking entry is in reach; otherwise its agents are those of the visited prefix. |
| ArdCatalog.TraversalIsATruncation | src/dns_aid/core/http_index.py:521-571 | The walk visits exactly a prefix of the depth-limited preorder, cut at 5000 entries, the 500th agent or the first failing entry, and keeps that prefix's agents in order. |
| ArdCatalog.ReachesUnique | src/dns_aid/core/http_index.py:539-548 | There is only one such prefix. |
| ArdCatalog.FailsExactly | src/dns_aid/core/http_index.py:521-571 | Whatever entries come to, the walk fails exactly when a failing one lies within the budgets' reach. |
| ArdCatalog.ReadFailsExactly | src/dns_aid/core/http_index.py:349-460 | The entries that raise: an unhashable type, or a proper agent entry whose description is a number, true, or an object of more than 1024 members. |
| ArdCatalog.CatalogLostExactly | src/dns_aid/core/http_index.py:482-571 | A catalog is lost exactly when such an entry is among the first 5000 and before the 500th agent. |
| ArdCatalog.OneBadEntryLosesTheCatalog | src/dns_aid/core/http_index.py:556-570 | After any number of good agents below the cap, one breaking entry discards them all. |
| ArdCatalog.BreakingExamples | src/dns_aid/core/http_index.py:349-460 | An entry of each kind that breaks. |
| ArdCatalog.NothingUnaccounted | src/dns_aid/core/http_index.py:463-479 | Entries seen are agents, counted skips other than the two caps, catalogs descended into, and the one failure. |
| ArdCatalog.KeptAgentIsUsable | src/dns_aid/core/http_index.py:375-460 | A kept agent has a DNS label for a name, a known protocol, exactly one artifact locator, and a description of bounded length. |
| ArdEntries.KeptExactly | src/dns_aid/core/http_index.py:375-460 | An entry is kept as a given agent exactly if its type is one of the two card types and gives the agent's protocol, its identifier gives the name and publisher, it has a display name, it has exactly one locator, whose host or else the publisher is the domain name, and its description, or the display name, is cut to 1024. |
| ArdEntries.UrnIs | src/dns_aid/core/http_index.py:280-295 | Name and publisher come from an identifier exactly if it matches the pattern; the name is the label made of the last segment. |
| ArdEntries.NameIsLabelFrom | src/dns_aid/core/http_index.py:289-294 | That label character by character: lower case, hyphens for what a label cannot hold, none at the ends, at most 63. |
| ArdEntries.DescendedExactly | src/dns_aid/core/http_index.py:539-556 | A catalog entry is descended into exactly if its catalog is inline. |
| ArdEntries.SkippedMeans | src/dns_aid/core/http_index.py:533-571 | The reason counted for each entry that is skipped, by its type and fields. |
| ArdEntries.FirstAgentsKept | src/dns_aid/core/http_index.py:527-531 | Of a list of agents the first 500 are kept. |
| ArdEntries.LaterAgentKept | src/dns_aid/core/http_index.py:531-536 | An agent behind entries that are skipped is kept exactly if they are fewer than 5000. |
| ArdEntries.DeepAgentKept | src/dns_aid/core/http_index.py:545-552 | An agent inside nested catalogs is reached exactly if they are at most three. |
| HostNames.OnDomainIsLabelSuffix | src/dns_aid/core/http_index.py:661-672 | The string-suffix test says that the domain's labels are the last labels of the host. |
| HostNames.HostOfExactly | src/dns_aid/core/http_index.py:675-677 | The host of a URL stands between the last at sign of its authority and the port, whatever else the URL holds. |
| OffDomain.FetchCascade | src/dns_aid/core/http_index.py:712-750 | The cascade, with its redirect flag for each source, returns the first source with agents and the URL that answered, failing that an empty answer if there was one, failing that nothing. |
| OffDomain.FetchedExactly | src/dns_aid/core/http_index.py:592-603 | A source is answered by a page exactly if at most three redirects lead there, or none where they are refused. |
| OffDomain.AskedInOrder | src/dns_aid/core/discoverer.py:1638-1684 | The URLs asked, written out: a followed pointer's, and the domain's own five. A pointer is followed if its name is on the domain, or it validated and that is to be trusted, or signatures are to be verified. |
| OffDomain.LabelIs | src/dns_aid/core/discoverer.py:1688-1698 | Which label a source's records get. |
| OffDomain.FirstServedUnique | src/dns_aid/core/http_index.py:712-750 | That determines the result. |
| OffDomain.WellKnownOnDomain | src/dns_aid/core/http_index.py:712-720 | Every location from which redirects are followed is an https URL on the queried domain. |
| OffDomain.FirstAnswerDecides | src/dns_aid/core/http_index.py:722-737 | A catalog asked of a well-known location is sure to come from an https URL on the domain, whatever else the web answers, exactly when the location's first answer is not a redirect to another URL. |
| OffDomain.LabelRightExactly | src/dns_aid/core/http_index.py:712-750 | The same for the whole cascade: agents for which it settles on a well-known location always carry the TLS label, and that label is sure to be right exactly when the location does not redirect to a URL other than itself and the well-known ones tried before it. |
| OffDomain.RedirectLeadsElsewhere | src/dns_aid/core/http_index.py:722-737 | A well-known location that redirects off the domain: what answers there is labelled as the domain's own. |
| OffDomain.RedirectedExample | src/dns_aid/core/http_index.py:646-648 | Such a URL for such a domain. |
| OffDomain.PointerNamesItsTarget | src/dns_aid/core/catalog_pointer.py:183-188 | The on-domain test made on a target name is right about the URL's host if the name has no delimiter. |
| OffDomain.TargetTestIsRightExactly | src/dns_aid/core/catalog_pointer.py:183-200 | For a name in front of a domain, the test is right about the URL's host under every domain exactly when the name has none of / ? # @ : [ ], or its URL is refused anyway. |
| OffDomain.DelimitedExample | src/dns_aid/core/discoverer.py:1640-1642 | A target name with a slash that is followed without signature or DNSSEC and labelled as the domain's own. |
| OffDomain.ServedTrust | src/dns_aid/core/discoverer.py:1638-1696 | A guard: whichever source served, its label is right about the URL that answered, unless it is the TLS label and a well-known location redirected or the target name holds a delimiter. |
| OffDomain.Discover | src/dns_aid/core/discoverer.py:1638-1731 | Records that are not so exposed were answered by https on the domain, or by a pointer target under opted-in validated DNSSEC, or have a verified signature, as their label says; none is exposed if no well-known location redirects and the target has no delimiter. The records returned are, in order, those of the agents served that convert, pass the filters and, where the label is a signature, verified. |
| OffDomain.ListSurvivors | src/dns_aid/core/discoverer.py:348-365 | The conversion, verification, drop and filter loop. |
| OffDomain.SurvivorsShown | src/dns_aid/core/discoverer.py:348-365 | Exactly those records survive, in the order of their agents: none is dropped under the other two labels. |
| CircuitBreaker.Breaker.GetState | src/dns_aid/sdk/_circuit_breaker.py:54-66 | The lazily updated answer is the one read off the call history. |
| CircuitBreaker.Breaker.RecordSuccess | src/dns_aid/sdk/_circuit_breaker.py:69-75 | Keeps the agreement of stored circuits with the history. |
| CircuitBreaker.Breaker.RecordFailure | src/dns_aid/sdk/_circuit_breaker.py:78-87 | The same for a failure, at any threshold. |
| CircuitBreaker.OnlyRelevantCallsMatter | src/dns_aid/sdk/_circuit_breaker.py:35-87 | State queries and other agents' calls leave an agent's count and last failure alone. |
| CircuitBreaker.AnswerIgnoresQueries | src/dns_aid/sdk/_circuit_breaker.py:54-66 | Inserting or removing queries or other agents' calls changes no answer. |
| CircuitBreaker.Transitions | src/dns_aid/sdk/_circuit_breaker.py:27-87 | Success closes a circuit, cooling down half-opens it, a failure while it is not closed re-opens it. |
| Fqdn.ParsedExactly | src/dns_aid/core/fqdn.py:66-115 | A name parses to an identity exactly when its normal form is that identity rendered in a shape that fits. |
| Fqdn.ShapesAreExclusive | src/dns_aid/core/fqdn.py:66-115 | No name has two shapes or two identities. |
| Fqdn.RenderedIsRecovered | src/dns_aid/core/fqdn.py:66-115 | Each rendered shape gives back name, protocol and domain. |
| Fqdn.SpellingsAgree | src/dns_aid/core/fqdn.py:63-72 | Letter case, outer white space and final dots make no difference. |
| CloudflareWrites.WriteRecord | src/dns_aid/backends/cloudflare.py:420-517 | At most two writes; success implies that the zone at the last answer holds the requested record, whatever others did in between; if no request sent meets a fault the write fails exactly when it is an update that would repeat another record; no other record changes, even if a fault hides that the write was carried out. |
| CloudflareWrites.Send | src/dns_aid/backends/cloudflare.py:270-315 | At most four sends and 90 s of waiting; only throttled answers are retried and a throttled answer is never returned; the waits are exactly those asked for or planned. |
| CloudflareWrites.RateLimitedExactly | src/dns_aid/backends/cloudflare.py:245-268 | Which answers count as throttled. |
| AkamaiRequests.Round | src/dns_aid/backends/akamai_edgedns.py:283-355 | One retry round: at most six sends and 16.75 s; every answer but the last was a zone-lock refusal, and the waits are exactly the doubled delays and their jitter. |
| AkamaiRequests.Request | src/dns_aid/backends/akamai_edgedns.py:283-355 | At most twelve sends and 33.5 s; POST becomes PUT once, only on a /names/ path and only for an existing record set; the last answer is what the caller gets. |
| AkamaiRequests.ConflictsExactly | src/dns_aid/backends/akamai_edgedns.py:311-337 | Which conflicts are retried and which turn a create into an update. |
| AkamaiRequests.InterpretExactly | src/dns_aid/backends/akamai_edgedns.py:339-367 | Exactly when nothing, an empty or a parsed body is returned; otherwise an error. |
| DcvWire.ParseTxt | src/dns_aid/core/dcv.py:135-157 | The first-wins dictionary loop computes the folded fields. |
| DcvWire.FirstWins | src/dns_aid/core/dcv.py:150-157 | A key has the value that the first word with that key, in any case, gives it, and is missing if none does. |
| DcvWire.QuotedReadsSame | src/dns_aid/core/dcv.py:145-148 | One layer of quotation marks around the text makes no difference. |
| DcvWire.WrittenAs | src/dns_aid/core/dcv.py:119-132 | The text of a challenge, part by part. |
| DcvWire.WireRoundTrip | src/dns_aid/core/dcv.py:119-157 | A built record reads back as written exactly when its binding holds no white space (section 6.1.2 of draft-ietf-dnsop-domain-verification-techniques-12). |
| Dcv.CheckRecords | src/dns_aid/core/dcv.py:432-535 | The decision loop with its remembered expired match: the first accepting or raising record decides, else the first lapsed one is reported. |
| Dcv.Verify | src/dns_aid/core/dcv.py:326-535 | The checks around it: a bad nameserver, no answer, more than ten records, missing validation where it was asked for and can be; a result marked validated had a validated answer. |
| Dcv.RaisesExactly | src/dns_aid/core/dcv.py:435-495 | For any query, a record makes the check raise exactly when its octets are not UTF-8, its token or the query's is not ASCII, or, under the right token, its time has no zone or a domain or binding still to be compared is not ASCII on either side. |
| Dcv.AcceptedExactly | src/dns_aid/core/dcv.py:435-500 | A record, of any octets, is accepted exactly if it can be read, has the token and an expiry that is an instant not before now, names no domain or the one asked about, and has the binding where one is expected. |
| Dcv.LapsedExactly | src/dns_aid/core/dcv.py:446-474 | It has lapsed, with a given expiry reported, exactly if it can be read, has the token, and that expiry is before now. |
| Dcv.OutcomeExactly | src/dns_aid/core/dcv.py:428-535 | The first record that accepts or raises decides; without one the first lapsed record's expiry is reported; without that nothing is found. |
| Dcv.ConcatAppend | src/dns_aid/core/dcv.py:432-438 | The strings of a record are decoded and read one after the other. |
| Dcv.OutcomeMeans | src/dns_aid/core/dcv.py:400-535 | Success needs an accepting record and an exception a raising one; having either gives one of the two. |
| Dcv.OrderMattersExactly | src/dns_aid/core/dcv.py:400-535 | The order of a record set matters exactly when it has both an accepting and a raising record. |
| Dcv.OrderExample | src/dns_aid/core/dcv.py:435-495 | A placed challenge beside a record that is not UTF-8: verified in one order, an exception in the other. |
| Dcv.PlacedMatches | src/dns_aid/core/dcv.py:221-279 | A placed challenge, read back from its octets, accepts a query exactly when token, expected binding and expiry agree. |
| Dcv.BindingHonouredExactly | src/dns_aid/core/dcv.py:119-157 | It does so for every query exactly when its binding holds no white space and nothing outside ASCII. |
| Dcv.ChallengeZone.PlaceChallenge | src/dns_aid/core/dcv.py:221-279 | Refuses a malformed token or lifetime, else replaces the domain's record; keeps zone and action history in agreement. |
| Dcv.ChallengeZone.VerifyChallenge | src/dns_aid/core/dcv.py:282-535 | After any run and for any query, verification succeeds iff the record in the zone answers it; if every binding placed was a good one, iff the last un-revoked challenge of the domain carries the token, the expected binding if any, and now is at most the expiry floored to the second. |
| Dcv.HeldIsCurrent | src/dns_aid/core/dcv.py:538-596 | With good bindings the record in the zone is that of the last un-revoked challenge. |
| Dcv.ChallengeZone.RevokeChallenge | src/dns_aid/core/dcv.py:538-596 | Refuses a malformed token; deletes exactly when the caller's own token currently verifies, and nothing else. |
| ZoneStore.Backend.CreateSvcbRecord | src/dns_aid/backends/mock.py:64-86 | Creating replaces the owner's record of the type and nothing else. |
| ZoneStore.Backend.CreateTxtRecord | src/dns_aid/backends/mock.py:88-106 | The same for TXT. |
| ZoneStore.Backend.DeleteRecord | src/dns_aid/backends/mock.py:108-130 | Removes the record and says whether it was there. |
| ZoneStore.DeleteEffect | src/dns_aid/backends/mock.py:108-130 | What a deletion does at every owner, under every way a backend may answer, lost answers included. |
| ZoneStore.CreateSvcbEffect | src/dns_aid/backends/mock.py:64-86 | What a creation does at every owner, likewise. |
| AgentParams.FieldsAreWritten | src/dns_aid/core/models.py:332-381 | In either key style every field that is given is found under its own parameter and no other value is; an empty or missing one is not written. |
| AgentParams.PrivateFields | src/dns_aid/core/models.py:85-98 | The ten private fields by name and number. |
| AgentParams.PublicFields | src/dns_aid/core/models.py:352-360 | The five others. |
| AgentParams.DecimalReads | src/dns_aid/core/models.py:354 | A port is written in decimal digits that read back as it. |
| AgentParams.ParamsWellFormed | src/dns_aid/core/models.py:332-381 | Nothing else is written, no parameter twice, and no parameter name holds an equals sign. |
| AgentParams.RecordLands | src/dns_aid/backends/base.py:225-364 | Whatever the key style, the backend's support and the failures on the way, a published record has every private field that is given at its owner, in the SVCB record or as a TXT value. |
| Publishing.PublishAgent | src/dns_aid/backends/base.py:225-364 | The loops and branches of publishing, native attempt and swallowed alias failure included, make exactly the specified requests. |
| Publishing.SplitParams | src/dns_aid/backends/base.py:252-260 | Standard and custom parameters partition the parameters. |
| Publishing.RecoveredDemoted | src/dns_aid/backends/base.py:315-317 | Parameters demoted to TXT values can be read back from them, values with equals signs included. |
| Publishing.PublishLands | src/dns_aid/backends/base.py:225-364 | In all three support modes and after a refused native attempt, every parameter is stored exactly once, in the SVCB record or as one dnsaid_ value; no publish, failed or not, touches an owner but the agent's two. |
| Publishing.AliasWritten | src/dns_aid/backends/base.py:334-356 | A wanted alias whose request is carried out points at the primary owner; without one nothing is written there. |
| Publishing.MetadataExactly | src/dns_aid/core/models.py:1061-1077 | Exactly which texts are published beside the endpoint. |
| Publishing.UnpublishAgent | src/dns_aid/core/publisher.py:387-536 | Probing, deleting and deciding, step by step, including every early exit. |
| Publishing.UnpublishKeeps | src/dns_aid/core/publisher.py:428-475 | However the backend behaves, only the agent's five records can disappear and no other record changes. |
| Publishing.UnpublishClears | src/dns_aid/core/publisher.py:387-536 | On an obedient backend none of the five is left, and True is returned iff one of them existed. |
| Publishing.SuccessWithSurvivor | src/dns_aid/core/publisher.py:478-519 | Success is reported with a primary record surviving exactly when both existed, none of the four primary requests raises, and one of the two deletions is masked. |
| Publishing.MaskedPairIsReported | src/dns_aid/core/publisher.py:497-519 | When every existing primary record survives, success is never reported. |
| Publishing.SurvivorExample | src/dns_aid/core/publisher.py:497-519 | A concrete run that reports success with the SVCB record still in place. |
| Publishing.PublishThenUnpublish | src/dns_aid/core/publisher.py:428-519 | Publish then unpublish leaves none of the five owners' records, returns True, and leaves every other zone, name and type as before. |
| IndexText.ParseIndexTxt | src/dns_aid/core/indexer.py:75-100 | The parsing loop computes the recursive parse. |
| IndexText.ParsedExactly | src/dns_aid/core/indexer.py:75-100 | The entries of any text: those of its chunks, after the header, that a first colon divides into a name and a protocol, neither empty once trimmed, the protocol in lower case. |
| IndexText.QuotesComeOff | src/dns_aid/core/indexer.py:145-148 | Quotation marks of either kind around a text come off. |
| IndexText.ParsedStorable | src/dns_aid/core/indexer.py:88-98 | Whatever is read is in the form the index can hold. |
| IndexText.ParseFormat | src/dns_aid/core/indexer.py:103-119 | Storable entries, duplicates included, read back in sorted order. |
| IndexText.FormatTwo | src/dns_aid/core/indexer.py:103-119 | How two entries are written. |
| IndexText.ListReadsBackExactly | src/dns_aid/core/indexer.py:75-119 | What any list says survives writing and reading exactly when all its entries are storable and, in sorted order, the last one has no final quotation mark or is there twice and adds nothing when clipped. |
| IndexText.SetReadsBackExactly | src/dns_aid/core/indexer.py:75-119 | A set survives writing and reading exactly when all its entries are storable and the text does not end in a quotation mark. |
| IndexText.TextIsTheSet | src/dns_aid/core/indexer.py:116-119 | The stored text depends only on the set, and tells sets of storable entries apart. |
| AgentIndex.ReadIndex | src/dns_aid/core/indexer.py:122-162 | The first value with entries, of the first owner whose name contains the index name, among those yielded before a listing ends or raises. |
| AgentIndex.FirstReads | src/dns_aid/core/indexer.py:140-155 | Of several values, or owners, the first with entries is read. |
| AgentIndex.StoredIsReadExactly | src/dns_aid/core/indexer.py:140-155 | Every stored text is what is read exactly when no other owner containing the index name carries entries. |
| AgentIndex.ShadowedExample | src/dns_aid/core/indexer.py:140-155 | A zone in which nothing stored at the index is ever read. |
| AgentIndex.UpdateIndex | src/dns_aid/core/indexer.py:204-336 | Read, change the set, validate the target, write the pointer and then the canonical text, with every failure, and the entries returned. |
| AgentIndex.UpdateReads | src/dns_aid/core/indexer.py:252-336 | A successful update leaves the text of the changed set to be read, and so does one whose last answer is lost; any other leaves the index as it was. |
| AgentIndex.OutcomeExactly | src/dns_aid/core/indexer.py:252-336 | What a call returns: which targets are refused, the entries as read on failure, and (S + add) - remove, with the created flag, on success. |
| AgentIndex.PointerStored | src/dns_aid/core/indexer.py:294-313 | Where a target is given, success leaves the record that says where the index is served. |
| AgentIndex.RunAgrees | src/dns_aid/core/indexer.py:204-336 | After any run of updates with any entries, failing requests and lost answers included, the index reads as the fold of (S + add) - remove over those carried out, each result passed through its text, S being empty where an update's own listing did not reach the index. |
| AgentIndex.CleanRunAgrees | src/dns_aid/core/indexer.py:204-336 | Where all entries are storable and none ends in a quotation mark, the passage through the text changes nothing. |
| AgentIndex.UpdateReturnsExactly | src/dns_aid/core/indexer.py:286-327 | The entries a successful update returns are those the index then reads as, exactly when all are storable and their text does not end in a quotation mark. |
| AgentIndex.UpdateKeepsExactly | src/dns_aid/core/indexer.py:156-162 | A successful update keeps the entries it was not told to remove exactly when its listing reached the index or it added them all again. |
| AgentIndex.LostExample | src/dns_aid/core/indexer.py:156-162 | An update that changes nothing and, unable to list the zone, leaves an index of one agent empty. |
| IndexSync.Discover | src/dns_aid/core/indexer.py:440-545 | The two scanning loops with their set of indexed names compute the discovered entries. |
| IndexSync.DiscoveredExactly | src/dns_aid/core/indexer.py:484-545 | An entry is discovered exactly when an alias or older owner names it, or a flat leaf with SVCB and TXT does and its name is not taken. |
| IndexSync.LegacyExactly | src/dns_aid/core/indexer.py:403-404 | Which owners are in the older shape, and the name and protocol they give. |
| IndexSync.WalkableExactly | src/dns_aid/core/indexer.py:403-404 | Which are aliases, and the name. |
| IndexSync.FirstTokenCounts | src/dns_aid/core/bap.py:150-166 | Of a list of protocols the first that is not empty counts. |
| IndexSync.SyncIndex | src/dns_aid/core/indexer.py:366-583 | Both listings, discovery, comparison and the conditional write, with the entries, differences and created flag returned. |
| IndexSync.DiscoveredIgnoresIndex | src/dns_aid/core/indexer.py:445-475 | Writing the index changes nothing about what is discovered. |
| IndexSync.SyncReads | src/dns_aid/core/indexer.py:553-583 | After a sync the index reads as the text of what was discovered, and the differences reported are the true ones. |
| IndexSync.SyncFails | src/dns_aid/core/indexer.py:366-583 | When a sync fails, what it returns then, and that the zone is left alone if it cannot be listed. |
| IndexSync.NothingToSync | src/dns_aid/core/indexer.py:553-583 | Where there is nothing to write or clear nothing is written. |
| IndexSync.SecondSyncIsStill | src/dns_aid/core/indexer.py:366-583 | A second sync of an unchanged zone adds and removes nothing exactly when everything discovered is storable and the end of its text is kept (as in `IndexText.ListReadsBackExactly`). |
| IndexSync.OrdinaryZoneIsStill | src/dns_aid/core/indexer.py:394-436 | That is so when owners are in lower case without comma, colon or outer white space, and protocols in lower case without comma, outer white space or final quotation mark. |
| IndexSync.UpperCaseTokenExample | src/dns_aid/core/indexer.py:408-436 | A lower-case owner with an upper-case protocol for which it is not so. |
| PublishedIndex.AgentEntries | src/dns_aid/core/indexer.py:484-545 | An agent with both records is discovered under the protocols that owners in the older shape name, and under that of its own record if there is no such owner or there is an alias. |
| PublishedIndex.DiscoveredInWords | src/dns_aid/core/indexer.py:484-545 | Exactly what is discovered in any zone, by owner names and records. |
| PublishedIndex.NamesAreRecognised | src/dns_aid/core/publisher.py:425-475 | The alias and the older owner that unpublishing removes are those the indexer recognises. |
| PublishedIndex.PublishedIsDiscovered | src/dns_aid/core/indexer.py:408-545 | Exactly what the next sync discovers of a published agent: what the older owners of before said, and, unless they alone count, the protocol seen in its own record: that of bap if string keys are on and nothing was demoted, else its own. |
| PublishedIndex.PublishedIsListed | src/dns_aid/core/indexer.py:527-545 | A published agent is discovered under some protocol whatever other owners there are. |
| PublishedIndex.SpokenBap | src/dns_aid/core/bap.py:50-52 | The indexer reads out of every valid bap value the protocol it is for. |
| PublishedIndex.ProtocolKeptExactly | src/dns_aid/core/indexer.py:408-436 | Without an older owner, a published agent is discovered under the protocol it is meant for exactly when it has no bap, or bap and protocol name the same, or string keys are on and nothing was demoted. |
| PublishedIndex.OverlookedExample | src/dns_aid/core/models.py:365-366 | An agent for MCP with the bap a2a, published under the default key style with every parameter supported, is listed for MCP and not for A2A. |

## Left out

- HTTP, TLS, DANE, DNS resolution, address checks before fetching, EdgeGrid request signing, client set-up: arbitrary answers stand for them.
- The inside of ECDSA, SHA-256, general JSON, PEM files and ISO dates: parameters with laws.
- Per-event-loop dictionaries: one loop is modelled.
- Key-set continuity logging, sampled identifiers for logs and all other log output: no effect on results.
- Route 53, NS1, Cloud DNS and DDNS backends, agent-card enrichment, capability fetching, in-memory filters, command line and server: they would add only easy members.
- Case folding is the ASCII one, and case-insensitive owner patterns match ASCII letters only.
- `JwksSafety.SingleFlight`: a cancelled waiter leaves its queue in the step that cancels it, not when it next runs.
- `JwksBatches.OneAttemptPerBatch`: says nothing for batches during which a fetch of the zone is cancelled or the entry on record lapses or is evicted; there a second attempt is what the code makes.
- `Verdict.VerifyRecord`: a document's `keys` member is taken to be a list.
- `ArdCatalog.KeptAgentIsUsable`: tags, capabilities, representative queries, versions and trust manifests of an entry are not carried into the agent.
- `ArdCatalog.CatalogLostExactly`: the interpreter's recursion limit, which a deeply nested value could meet, is not modelled.
- `OffDomain.Discover`: the queried domain is a non-empty host name; what the web answers does not change during one discovery; filters after the drop are one predicate.
- `OffDomain.TargetTestIsRightExactly`: names are as a resolver prints them, on one line; a name with an at sign in front of the first slash counts as refused, which it is, since printed names escape the sign; brackets are parsed as current CPython releases do.
- `CloudflareWrites.WriteRecord`: the service is modelled as refusing a second identical record, and a fault as answering with an error that is not that refusal.
- `CloudflareWrites.Send`: a retry delay that is not a number of seconds counts as absent.
- `Dcv.ChallengeZone.VerifyChallenge`: in runs over a zone the usual resolver answers, without validation, and the zone holds one TXT record of one string per domain; domains are validated ones.
- `ZoneStore.Backend.CreateSvcbRecord`: a backend that masks requests masks deletions only; TTLs are left out.
- `Publishing.PublishAgent`: validation of arguments, the zone check before publishing and the mock backend's own publish method, which is the mode that supports every parameter, are not repeated.
- `Publishing.PublishLands`: parameter names hold no equals sign, as none the library writes does (`AgentParams.ParamsWellFormed`).
- `AgentParams.ParamsWellFormed`: fields are those of a record that passed validation; only the shapes of `name` and `bap` are modelled.
- `AgentIndex.UpdateIndex`: the message of the result is left out, and its entries are a set.
- `AgentIndex.RunAgrees`: assumes that no other owner is read as the index; `AgentIndex.StoredIsReadExactly` says exactly when that is so.
- `IndexText.SetReadsBackExactly`: exact for ASCII case folding, as everything about lower case here is.
- `IndexSync.SyncIndex`: the message of the result is left out.
- `IndexSync.SecondSyncIsStill`: assumes that nothing fails during the two syncs.
