# ShardDNS, modelled and proved in Dafny

ShardDNS is an authoritative DNS server. Several instances share one PostgreSQL database, each keeps
its own sharded cache of zone and name lookups, and changes travel between instances as events. This
project models the parts of it whose correctness is not visible in any single function, and proves what
they promise for every input, every run and every interleaving.

`dafny verify dfyconfig.toml` checks the whole project.

## The parts

| modules | what they hold |
|---|---|
| `Bytes`, `Names`, `Validation`, `Arithmetic` | byte strings, labels and ancestry, the reversed-name index, name validation and normalisation |
| `Tables`, `Transactions`, `SqlStore`, `Service`, `Api`, `Writes` | the two tables, each transaction as one step, the store and service objects that carry them out, what every run of the service keeps, what each call leaves behind and which calls succeed |
| `ShardedCache`, `CachedResolver` | the 64-shard cache as one flat map, and the invalidation loop |
| `Invalidation`, `Coherence`, `Cluster` | the epoch-guarded cache protocol as interleaved steps: loaders, bumps, per-shard deletes, commits, events, disconnects |
| `Lookup`, `ZoneView` | the bottom-up walk against the top-down match of section 4.3.2 of RFC 1034 |
| `Resolution`, `Aliases`, `Negatives`, `Sections`, `Sources`, `Completeness`, `Frame`, `Gate`, `Soa` | the handler: which requests it answers, alias chains, DNAME, referrals, negative answers, rotation, glue, where served records come from, that nothing found is left out, and what is read on the way |
| `WireName`, `Message`, `RoundTrip`, `Layout`, `Udp`, `RData` | the wire codec, octet by octet, and UDP truncation |
| `Paging` | keyset paging while the table changes |
| `Nameserver`, `Datagram` | the pieces put together: what a requestor may conclude from a reply, and what of it arrives |

Text is a sequence of bytes throughout, as a Go string is. Record types are held as their numeric
codes, 0 being the code of an unknown type name. The unique index's `md5` is taken as injective and
lower-casing is ASCII. Clock readings, hash functions, one for each instance, and RDATA encoders for
types whose data is not modelled are parameters; `Aliases.NamesPacked` says what the encoder does for
NS, CNAME, DNAME and PTR (internal/dns/rdata.go:41-45), and `Aliases.WithNames` spells those cases out.
A failed commit commits nothing. Names of mutable objects follow the source: `Cache`, `CachedResolver`,
`Store`, `Server` (the service) and `Handler` are classes whose methods carry the source's loops and
are each proved against a function of the old state.

## What was found on the way

Where a promise turned out not to hold of the code on every input, the code is modelled as it is and
the exact condition is proved.

- The service and the store each strip the zone text once. A delete therefore announces what it removed
  exactly when one stripping is enough (`Service.NoticeAgreesIff`); `"z.."` is a counterexample
  (`Service.DeleteAnnouncesWrongZone`), and such a delete leaves wrong entries that no invalidation of
  its own reaches (`Invalidation.MisannouncedDeleteEscapes`). Runs of the cluster include such deletes,
  and the theorems say when such an entry is put right: by the next announced change that reaches it, by
  a reconnect, or when it is evicted or expires with no load of it under way.
- Invalidation never deletes an entry whose name lies strictly above its zone. Coherence holds for all
  other keys; for each such entry some change escapes (`Invalidation.UnguardedEscapes`).
  Only a name that its own zone does not hold leads the handler to such an entry (`Frame.WalkFrame`),
  and the name of any zone of two labels with a space in front does (`Nameserver.SpacedNameReadsAbove`).
- The walk looks at an exact match before any cut above it and ignores DNAME at the apex; it agrees with
  the standards exactly when `Lookup.AgreesIff` says so.
- `FindZone` trims white space and a trailing dot but the handler looks the untrimmed name up, so the
  zone found need not hold the name (`Aliases.FoundZoneHoldsNameIff`, `Aliases.SpacedNameEscapes`).
- A query for ANY that a DNAME redirected to a missing name is answered NOERROR without an SOA
  (`Negatives.NxdomainIff`, `Negatives.NegativeCarriesSoa`, `Negatives.RedirectedAnySaysNoerror`).
- A reply's UDP limit is the server's own, not the one the requestor advertised
  (`Udp.LimitHonoursRequestIff`).
- A DNAME whose target is the root yields no synthesized CNAME, because the new name cannot be packed
  (`Aliases.RootTargetTurn`, `Aliases.DnameTurn`).
- A DNAME that makes the name longer than 253 octets is answered with SERVFAIL, the DNAME in the answers;
  it is the only failure a sound database leaves (`Aliases.DnameTurn`, `Nameserver.AnswersAreTrue`).
- TXT data is accepted at any length, and a question for a text of more than 65279 octets gets no
  datagram at all (`Datagram.LongTextSentIff`).
- A question whose name cannot be packed, because a label holds a dot, comes back as the root
  (`Datagram.QuestionEchoedIff`).
- A set is served in strict rotation except across a wrap of the 32-bit counter whose period its size
  does not divide (`Sections.EveryRecordLeadsIff`).

## Model

| member | source | states |
|---|---|---|
| `Cluster.StaleIsExcused` | cmd/sharddnsd/main.go:102-140 | in every state of every run of any number of instances, each with its own hash, a cached entry not strictly above its zone that differs from the store's answer now has a local invalidation still to delete it, a committed change due or queued there whose invalidation deletes it, a broken connection whose repair clears everything, or is astray: a past call wrote what alters it and announced another zone, and since then the instance has had the entry or a load of it all the time, its connection has held, and nothing announced has reached it |
| `Cluster.QuietIsCoherent` | internal/store/cached.go:83-115 | once nothing is outstanding at an instance, every cached entry that is not strictly above its zone and not astray equals the store's answer; events it sent itself may still be queued, so ignoring them loses nothing |
| `Cluster.SingleInstanceCoherent` | internal/cache/cache.go:68-133 | with one instance, connected or not, a stale entry always has a write of that instance that is committed and not started on its invalidation, or started and with that entry still to delete, jobs of events and reconnects not counted; or is astray |
| `Cluster.RunKeeps` | internal/events/bus.go:40-78 | every state of every run satisfies the cluster invariant, with exactly the astray keys given up |
| `Cluster.NextKeeps` | internal/events/bus.go:65-78 | every step, of a loader, a writer, the event queue or the connection, keeps the cluster invariant, and a key given up may be taken back when an announced change reaches it, its entry and loads are gone or the connection breaks |
| `Cluster.ServeFences` | internal/api/service.go:122-169 | a commit alters only answers and first reads that what it wrote reaches, and every key that what it announced reaches is raised and then dropped |
| `Coherence.MoveKeeps` | internal/cache/cache.go:68-87 | each step of a load (epoch read, one or two reads, both epoch checks, lock, write) and each expiry keeps the invariant of one instance, even when the two reads straddle a commit |
| `Coherence.PerformKeeps` | internal/cache/cache.go:103-133 | performing the next bump or per-shard delete of an outstanding invalidation keeps it |
| `Coherence.StrayActionKeeps` | internal/cache/cache.go:103-133 | an action of an invalidation nobody counts on does no harm |
| `Coherence.CommitKeeps` | internal/store/cached.go:33-81 | a commit keeps it provided an invalidation fencing every altered key is owed |
| `Coherence.LostKeeps` | internal/cache/cache.go:68-133 | a key that was given up may be taken back once an outstanding invalidation fences it or neither entry nor load is left |
| `Invalidation.ChangeIsLocal` | internal/store/record.go:167-189 | a change at a name can alter a lookup, or its first read, only in that zone and at or above that name |
| `Invalidation.ServeUntouched` | internal/store/record.go:38-127 | a successful call alters only the rows of the zone, or of the zone and name, that it names |
| `Invalidation.InvalidateReaches` | internal/store/cached.go:83-100 | the invalidation of a change first raises the epoch and then drops every key the change can alter |
| `Invalidation.ClimbIsExact` | internal/store/cached.go:89-99 | the upward loop drops exactly the keys of the name and its ancestors down to the apex |
| `Invalidation.InvalidateDropsName` | internal/store/cached.go:83-100 | of all name keys, a record change drops exactly those |
| `Invalidation.UnguardedEscapes` | internal/store/cached.go:83-100 | for every key strictly above its zone there is a change that alters its answer and whose invalidation leaves the entry in place |
| `Invalidation.MisannouncedDeleteEscapes` | internal/api/service.go:101-108 | a delete whose zone text needs two strippings leaves the entry of every row it removed wrong and out of its invalidation's reach |
| `CachedResolver.CachedResolver.constructor` | internal/store/cached.go:25-31 | both caches start empty and valid, with the capacities and lifetime derived from the configuration |
| `CachedResolver.CachedResolver.Invalidate` | internal/store/cached.go:83-100 | the zone cache is emptied; of the names the zone's group goes when no name is given, and otherwise exactly the keys of the names the loop visits |
| `CachedResolver.CachedResolver.DeleteUpwards` | internal/store/cached.go:89-99 | the loop ends having deleted exactly the keys of the visited names |
| `CachedResolver.CachedResolver.InvalidateAll` | internal/store/cached.go:112-115 | both caches are empty afterwards |
| `CachedResolver.VisitedIsExact` | internal/store/store.go:143-152 | for a name in the zone, as `NormalizeName` makes it, the visited names are the name and its ancestors down to the apex |
| `CachedResolver.ProgramIsMethod` | internal/store/cached.go:83-100 | run without interleaving, the program of atomic actions the protocol is proved with and the method on the caches delete the same name entries |
| `CachedResolver.CacheKeyInjective` | internal/store/cached.go:61-62 | different lookups have different cache keys, zone names being free of NUL |
| `CachedResolver.ValidHasNoNul` | internal/dns/names.go:8-41 | a validated zone name is free of NUL |
| `ShardedCache.HoldsLastSurvivingSet` | internal/cache/cache.go:54-133 | over any history of operations, what is held for a key is what its last set stored, and nothing since deleted the key, its group or everything |
| `ShardedCache.TotalIsDistinctKeys` | internal/cache/cache.go:135-144 | each key lives in one shard, so the shard sizes add up to the number of keys |
| `ShardedCache.TotalBound` | internal/cache/cache.go:34-44 | the total is at most the number of shards times the shard bound |
| `ShardedCache.Cache.constructor` | internal/cache/cache.go:34-44 | an empty cache with room in each of 64 shards for a 64th of the configured maximum, and at least one |
| `ShardedCache.Cache.Get` | internal/cache/cache.go:54-66 | a hit is the flat map's unexpired entry for the key |
| `ShardedCache.Cache.Set` | internal/cache/cache.go:68-87 | with a stale epoch nothing changes; otherwise the entry is in place and other entries may vanish but never change |
| `ShardedCache.Cache.Evict` | internal/cache/cache.go:89-101 | no expired entry survives, there is room for one more, and an unexpired entry goes only if the shard ends exactly one below its bound |
| `ShardedCache.Cache.Delete` | internal/cache/cache.go:103-109 | the epoch rises and the flat map loses exactly that key |
| `ShardedCache.Cache.DeleteGroup` | internal/cache/cache.go:111-123 | the epoch rises and the flat map loses exactly that group |
| `ShardedCache.Cache.Clear` | internal/cache/cache.go:125-133 | the epoch rises and the flat map is empty |
| `ShardedCache.Cache.Len` | internal/cache/cache.go:135-144 | the count is the number of keys in the flat map and within the bound |
| `Lookup.AgreesIff` | internal/dns/handler.go:197-246 | for every zone contents and in-zone name the bottom-up result equals the top-down label match of section 4.3.2 of RFC 1034 with section 3.2 of RFC 6672 if and only if nothing on the path exists below a cut on the path and, for a missing name under no cut, the encloser is not an apex with a DNAME and its wildcard has records if it exists |
| `ZoneView.ServedZoneAgrees` | internal/dns/names.go:23-28 | in a zone built by any run of the service with no DNAME at its apex, the two agree on every in-zone name with nothing below a cut on its path |
| `ZoneView.ShownTree` | internal/store/record.go:167-189 | what the store answers for a zone forms a tree: a name below which something exists exists |
| `ZoneView.NothingBelowWildcard` | internal/dns/names.go:23-28 | no validated name lies below a wildcard |
| `ZoneView.ShownCnameAlone` | internal/store/record.go:57-82 | a lookup that returns a CNAME returns nothing else, and not at the apex |
| `Lookup.EncloserIsClosest` | internal/dns/handler.go:214-236 | for any contents the ancestor loop stops exactly at the longest ancestor inside the zone that exists, the apex counting as existing |
| `Lookup.WalkIsBottomUp` | internal/dns/handler.go:197-246 | a walk that does not fail finds what it finds without failures, and without failing lookups it does not fail |
| `Lookup.WalkFailsIff` | internal/dns/handler.go:197-246 | the walk fails if and only if a lookup it depends on does: that of the name, of an ancestor up to the closest encloser, or of the wildcard |
| `Lookup.WildcardIs` | internal/dns/handler.go:238-245 | the wildcard consulted has the label "*" in front of the labels of the closest encloser |
| `Lookup.LookupMatch` | internal/dns/handler.go:197-246 | the code with its early returns computes the walk |
| `Lookup.Climb` | internal/dns/handler.go:214-245 | the ancestor loop followed by the wildcard lookup computes what the closest encloser has to say |
| `Lookup.FilterType` | internal/dns/handler.go:321-329 | the loop keeps the records of the type, in order |
| `Lookup.OfTypeMember` | internal/dns/handler.go:321-329 | every record of the type is kept and no other |
| `Lookup.MatchedMeans` | internal/dns/handler.go:202-212 | a node the top-down match reaches exists and has no cut above it |
| `Lookup.StoppedMeans` | internal/dns/handler.go:214-236 | the top-down match stops exactly at the closest encloser of a missing name, with no cut at or above it |
| `Lookup.ReferredMeans` | internal/dns/handler.go:225-232 | the top-down match refers from the topmost cut on the path |
| `Aliases.AnswersFormAChain` | internal/dns/handler.go:97-195 | with single CNAMEs the answers other than DNAME records form a chain: the first owner is the name as asked, each later owner the lower-cased decoded target of the CNAME before, and the last set shares its owner |
| `Aliases.LoopAddsChain` | internal/dns/handler.go:97-195 | the same from any point of the loop with any number of turns left |
| `Aliases.HopAdds` | internal/dns/handler.go:113-188 | a hop adds, besides a DNAME, exactly one alias, which decodes to the next owner |
| `Aliases.VisitsFindTheirZone` | internal/dns/handler.go:248-257 | there are at most nine turns, and at each the zone is the one found for the current name |
| `Aliases.FoundZoneHoldsNameIff` | internal/store/zone.go:98-115 | the zone found for a lower-case name holds it if and only if the name ends in a label and, if it starts with white space, its trimmed form is not a zone |
| `Aliases.SpacedNameEscapes` | internal/store/store.go:139-141 | for every zone, its name with a space in front finds the zone, which does not hold it |
| `Aliases.DnameSubstitution` | internal/dns/handler.go:119-127 | the labels of the owner are replaced by those of the target, the new name can be packed exactly when its text is at most 253 octets, and then its packed form parses back to it |
| `Aliases.DnameTurn` | internal/dns/handler.go:113-138 | at any servable DNAME above a well-formed name: the DNAME is added; one CNAME, with its TTL and decoding to the new name, is added if and only if the target is not the root and the new name is at most 253 octets; SERVFAIL is set if and only if it is longer |
| `Aliases.RootTargetTurn` | internal/dns/handler.go:119-127 | with the root for a target the turn adds the DNAME alone, whatever the name asked for, and sets SERVFAIL if and only if the new text is longer than 253 octets |
| `Aliases.TargetIsTidy` | internal/dns/rdata.go:41-45 | a name-valued record decodes to the root or to well-formed text |
| `Aliases.WithNamesPacks` | internal/dns/rdata.go:41-45 | the encoder with its name-valued cases spelled out meets the hypothesis the theorems make of it |
| `Aliases.NameRowDecodes` | internal/dns/rdata.go:41-45 | the data of an NS, CNAME, DNAME or PTR record decodes to its own text, and text that is not a single name is refused |
| `Negatives.NxdomainIff` | internal/dns/handler.go:140-195 | whether aliases were followed or not, the rcode is NXDOMAIN if and only if the last name is not the apex, has no records or descendants, and its closest encloser has no cut, no DNAME below the apex and no wildcard records; except that ANY redirected by a DNAME never is |
| `Negatives.NegativeCarriesSoa` | internal/dns/handler.go:259-281 | an authoritative reply whose last turn found nothing has exactly one authority record, the SOA of the last zone as `Soa.SoaReads` reads it; one whose last turn found something has none; and one to ANY redirected by a DNAME has none and says NOERROR about a missing name |
| `Negatives.RedirectedAnySaysNoerror` | internal/dns/handler.go:143-154 | a concrete query for ANY below a DNAME that ends at a missing name and gets NOERROR, two answers and no SOA |
| `Negatives.TurnSettles` | internal/dns/handler.go:140-192 | the same for one turn from any point of the loop |
| `Negatives.NotPresentIsAbsent` | internal/dns/handler.go:197-246 | what the walk reports as not present is exactly what is absent from the zone |
| `Negatives.ServableSoa` | internal/dns/handler.go:273-281 | every zone the service accepted has its SOA, owned by the apex |
| `Negatives.FinalIsLastVisit` | internal/dns/handler.go:97-195 | the place the theorems speak of is the last one the loop looked at |
| `Sections.WholeSetAnswered` | internal/dns/handler.go:165-170 | if the walk finds records of the type asked for, the turn ends there and adds exactly their servable forms, all of them, in some rotation, and sets no rcode or authority |
| `Sections.SetIsWhole` | internal/dns/handler.go:283-295 | whatever the counter, a set is served whole: rotation only permutes it |
| `Sections.ServedInOrder` | internal/dns/handler.go:283-295 | a set is served from its leader on, in order and round to the one before it |
| `Sections.EveryRecordLeadsIff` | internal/dns/handler.go:288-291 | over n consecutive servings of n records each leads exactly once if and only if the 32-bit counter does not wrap among them or n divides 2^32 |
| `Sections.GlueNamesMean` | internal/dns/handler.go:342-359 | the names looked up are distinct in-zone targets, at most sixteen, and all of them unless there are sixteen |
| `Sections.GlueIsAddressesOfTargets` | internal/dns/handler.go:335-366 | the additional section holds servable addresses of in-zone targets and nothing else, and all of them while there are fewer than sixteen targets |
| `Sources.NothingInvented` | internal/dns/handler.go:97-195 | whatever the question and however many aliases are followed, every record in every section is a row stored at its owner, or at the wildcard below an ancestor of it, with the row's type, TTL and data; the SOA of a stored zone, data included; or an alias whose owner lies below a stored DNAME, with its TTL and decoding to the owner with the DNAME's name replaced by its target |
| `Completeness.ReplyReports` | internal/dns/handler.go:97-195 | at every place on the way the reply goes on, in every section, with all of what the walk found there and nothing else: the whole set asked for in some rotation with its addresses, or else the alias, or else the SOA and the proper rcode; SOA and all records for ANY; the DNAME with its alias, or SERVFAIL if the name gets too long; at a cut the name servers, their addresses and AA off. An alias leads to the next place; it is left alone only if no zone is found for its target or the turns are over |
| `Completeness.SilenceMeansNothing` | internal/dns/handler.go:165-192 | an authoritative reply that its last turn added nothing to, ANY apart, means the name consulted has no record of the type asked for and no alias |
| `Completeness.MatchedAt` | internal/dns/handler.go:197-246 | the records of a match are those of the name itself if it exists and of the wildcard below its closest encloser if not, all name servers of the cut's owner, or the first DNAME of the owner that redirects |
| `Frame.WalkFrame` | internal/dns/handler.go:197-246 | the walk from a name in the zone reads only names in the zone: two resolvers that agree there give the same match |
| `Frame.GlueFrame` | internal/dns/handler.go:342-366 | additional records are only looked up for names in the zone |
| `Frame.LoopFrame` | internal/dns/handler.go:97-195 | as long as each name on the way lies in its zone, a whole run depends on the contents of those zones alone |
| `Resolution.Handler.Handle` | internal/dns/handler.go:33-86 | the ordered checks and the loop give the response `Gate.RepliesAreProper` describes, a failure discarding everything gathered, and leave the counter as specified |
| `Gate.RepliesAreProper` | internal/dns/handler.go:33-86 | a request gets a bare reply with rcode 4 for an opcode other than 0, 1 unless it has one question, 5 for a class other than 1 and 255, 1 for type 41, 5 for types 251 and 252 and for the root, 5 if no zone is found for its name, and in every other case a truthful reply |
| `Gate.FailureIsReported` | internal/dns/handler.go:67-83 | if at any place on the way a lookup the walk depends on fails, or a zone cannot be found out, the reply is SERVFAIL with no records and AA off |
| `Gate.AliasIsFollowed` | internal/dns/handler.go:97-138 | each of up to eight aliases whose target some zone holds is followed |
| `Gate.AssignedNumbers` | internal/dns/message.go:10-60 | types, classes and rcodes have their assigned numbers |
| `Resolution.Handler.Follow` | internal/dns/handler.go:97-195 | the loop over at most nine hops is the specified turn taken again and again |
| `Resolution.Handler.Step` | internal/dns/handler.go:99-192 | one pass through the loop body is the specified turn |
| `Resolution.FollowDname` | internal/dns/handler.go:113-138 | suffix trimming, length and packing tests, the synthesized alias and the zone lookup in source order give the specified turn |
| `Resolution.Handler.Settle` | internal/dns/handler.go:140-192 | choosing among the records found is the specified turn |
| `Resolution.Handler.AppendSet` | internal/dns/handler.go:283-295 | the section grows by the rotated set and the counter ticks only for sets of two or more |
| `Resolution.AppendFrom` | internal/dns/handler.go:292-294 | the modular index visits the rotated sequence |
| `Resolution.AddGlue` | internal/dns/handler.go:342-366 | the loop with its set of seen names and early return yields the specified addresses |
| `Resolution.Referral` | internal/dns/handler.go:104-111 | a cut becomes authority and glue with AA off |
| `Resolution.AppendEach` | internal/dns/handler.go:297-305 | the servable records are appended in order under the given owner |
| `Nameserver.QuietInstanceAnswersTruly` | cmd/sharddnsd/main.go:85-140 | in every run of any number of instances, an instance with nothing outstanding answers a question out of its caches truthfully about the current database, whatever else is cached, provided each name on the way lies in the zone found for it and no entry of those zones is astray. Truthfully: the answers form an alias chain from the name as asked; every record comes from the database; at every place on the way the zone is the one `FindZone` gives, what the walk found is what is stored, and the reply carries all of it and nothing else; aliases are followed while a zone holds them, up to nine turns; the rcode is NXDOMAIN exactly when the last name is absent (ANY after a hop apart), and then no row lies at or below it, SERVFAIL exactly when a DNAME makes the name too long, else NOERROR; AA is off exactly at a cut; and an authoritative reply carries the SOA exactly when its last turn found nothing, ANY after a hop apart, which means nothing of the kind is stored |
| `Nameserver.AnswersAreTrue` | internal/dns/handler.go:67-85 | the same over any consistent database read directly, without a condition on the names |
| `Nameserver.MatchIsAsStored` | internal/store/record.go:167-189 | what the walk finds is what is stored, no row missing or repeated |
| `Nameserver.SilenceIsTrue` | internal/dns/handler.go:165-192 | if an authoritative reply adds nothing at its last name, ANY apart, the database has no row of the type asked for and no alias at that name or at the wildcard consulted for it |
| `Nameserver.VisitHoldsNameIff` | internal/store/zone.go:98-115 | a name on the way lies in the zone found for it if and only if it ends in a label and, if it starts with white space, its trimmed form is not a zone |
| `Nameserver.SpacedNameReadsAbove` | internal/dns/handler.go:214-245 | for every zone of two labels or more, a question for its name with a space in front makes the walk look up the parent of the apex in that zone, a key no invalidation accounts for |
| `Datagram.RequestorReads` | internal/dns/message.go:190-453 | for any request that parses, over any consistent database, the reply is the proper one (`Gate.RepliesAreProper`); if no stored data is longer than 65535 octets a datagram is sent, and from any datagram sent the requestor reads id, rcode, AA, EDNS with size 1232 and the DO bit as set, and the question, answers and authority whole, with all additional records or none, unless TC says that the records were left out; the names being those of the reply whenever the name asked for can be packed |
| `Datagram.ClusterRequestorReads` | cmd/sharddnsd/main.go:85-140 | the same out of the caches of an instance with nothing outstanding, in every run of any number of instances, about the database as it is now, provided each name on the way lies in the zone found for it and no entry of those zones is astray |
| `Datagram.DatagramReads` | internal/dns/message.go:347-453 | whatever its names and counts, a message whose data fits is read from its datagram as it was sent, names that cannot be packed being read as the root |
| `Datagram.QuestionEchoedIff` | internal/dns/message.go:347-353 | the question is read back as asked if and only if its name can be packed or is ".." |
| `Datagram.LongTextSentIff` | internal/api/service.go:122-158 | once a TXT text of n octets is stored, which the service accepts for any n, the question for it is answered if and only if n is at most 65279 |
| `Nameserver.AbsentIsUnoccupied` | internal/store/record.go:167-189 | the database has no row at or below an absent name |
| `Nameserver.ResponseHeader` | internal/dns/message.go:164-188 | rcode, AA, QR, opcode and RD of a response read back as set, TC is off, and id and question are the request's |
| `Service.RunSound` | internal/api/service.go:44-169 | after any run: a CNAME is alone at its name and never at the apex, an RRset has one TTL, every row's zone exists and holds its name, reversed names are in step, all names and types are valid, and all data has a wire form, of whatever length |
| `Service.NoticeAgreesIff` | internal/api/service.go:101-169 | creates and updates announce exactly what was written; a delete does if and only if one stripping of its zone text is enough |
| `Service.DeleteAnnouncesWrongZone` | internal/api/service.go:101-108 | creating zone "z" and deleting it under the spelling "z.." removes it but announces "z." |
| `Service.SerialAdvances` | internal/store/zone.go:14-14 | whatever the clock does, a successful call strictly raises the serial of the zone it wrote, and its 32-bit truncation advances in the sense of section 3.2 of RFC 1982 while the clock is less than 2^31 seconds past creation; other zones are left alone |
| `Service.SerialMonotoneOverRun` | internal/store/zone.go:29-58 | over any stretch of a run in which the zone exists its serial never falls and its creation time never changes |
| `Service.ServeServable` | internal/api/service.go:122-158 | every call keeps all stored zones and records servable |
| `Writes.RecordCreated` | internal/store/record.go:38-102 | a created record is one row at the normalised zone and name with its type, TTL or 300, and data; all rows of that name stay, and only the TTL of that type changes; a relative name goes in front of the zone |
| `Writes.RecordDeleted` | internal/store/record.go:104-127 | a delete takes exactly the one row of the type and data; every other row stays |
| `Writes.RecordMovesSerial` | internal/store/zone.go:14-14 | creating or deleting a record sets the serial of its zone to one more or to the clock if that is greater, and changes no other value of any zone |
| `Writes.ZoneCreated` | internal/api/service.go:44-68 | a created zone has each value of the request, or its default, and the clock as its serial; nothing else changes |
| `Writes.ZoneUpdated` | internal/store/zone.go:53-58 | an updated zone has each value written and a new serial; nothing else changes |
| `Writes.ZoneDeleted` | internal/store/zone.go:60-69 | a deleted zone goes with exactly its records |
| `Writes.CreateRecordOutcome` | internal/api/service.go:122-158 | exactly when creating a record succeeds, is invalid, misses its zone or conflicts; a call that fails writes and announces nothing |
| `Writes.DeleteRecordOutcome` | internal/api/service.go:160-169 | a delete succeeds if and only if a row of the type and data is at the name |
| `Writes.ZoneOutcomes` | internal/api/service.go:44-108 | exactly when creating, updating and deleting a zone succeed, and what is reported if not |
| `Soa.SoaReads` | internal/dns/handler.go:273-281 | the SOA served for a zone reads, field by field, as its primary name server, its mail address with the first "@" as ".", its serial truncated to 32 bits, refresh, retry, expire and MinTTL |
| `Soa.ServedSerialAdvances` | internal/dns/handler.go:275-276 | every successful call advances the serial read from the SOA of the written zone in the sense of section 3.2 of RFC 1982, while the clock is less than 2^31 seconds past creation, and leaves the SOA of other zones alone |
| `Api.ValidateSoa` | internal/api/service.go:231-241 | the loop over the two names and the timer tests accept exactly the valid parameters |
| `Api.Server.CreateZone` | internal/api/service.go:44-68 | validate, write, then notify: tables, outcome and notice are as specified |
| `Api.Server.UpdateZone` | internal/api/service.go:78-99 | each stored value stands where the request leaves it out and is the request's otherwise; validate, write, then notify as specified, or report a missing zone |
| `Api.Server.DeleteZone` | internal/api/service.go:101-108 | likewise for a zone delete |
| `Api.Server.CreateRecord` | internal/api/service.go:122-158 | likewise for a record, which is returned as stored, under its normalised zone and name with its type, TTL or 300, and data; nothing is announced unless it was committed |
| `Api.Server.DeleteRecord` | internal/api/service.go:160-169 | likewise for a record delete |
| `SqlStore.Store.CreateRecord` | internal/store/record.go:38-102 | the statements in order, with rollback on conflict and with any number of ids lost to rolled-back inserts before, amount to one atomic step, and the row returned is the stored row asked for |
| `SqlStore.Store.DeleteRecord` | internal/store/record.go:104-127 | the delete and the serial bump amount to one atomic step, undone when no row matched; which row goes is `Writes.RecordDeleted` |
| `SqlStore.Store.CreateZone` | internal/store/zone.go:29-46 | the insert amounts to one atomic step with its conflict |
| `SqlStore.Store.UpdateZone` | internal/store/zone.go:53-58 | the update amounts to one atomic step with the serial bumped |
| `SqlStore.Store.DeleteZone` | internal/store/zone.go:60-69 | the delete cascades to the zone's records |
| `SqlStore.InsertThenSetTtl` | internal/store/record.go:84-96 | upsert followed by the TTL update equals inserting if absent and giving the whole RRset the new TTL |
| `Transactions.CreateRecordConsistent` | internal/store/record.go:38-102 | creating a record keeps keys, containment, the unique index, CNAME exclusivity, one TTL per RRset and serials not behind creation |
| `Transactions.DeleteRecordConsistent` | internal/store/record.go:104-127 | deleting a record keeps them |
| `Transactions.CreateZoneConsistent` | internal/store/zone.go:29-46 | creating a zone keeps them |
| `Transactions.UpdateZoneConsistent` | internal/store/zone.go:53-58 | updating a zone keeps them |
| `Transactions.DeleteZoneConsistent` | internal/store/zone.go:60-69 | deleting a zone with its records keeps them |
| `Tables.DeepestIsLongestMatch` | internal/store/zone.go:98-115 | the zone found holds the name and lies inside every other zone that does; none is found only when there is none |
| `Tables.FindZoneByCandidates` | internal/store/zone.go:98-115 | the candidate loop followed by the longest-first query finds that zone |
| `Tables.ScanIsBelow` | internal/store/record.go:181-184 | the index range scan finds a row exactly when some row lies below the name |
| `Tables.ExistsIsOccupied` | internal/store/store.go:54-56 | a name exists exactly when some row is at or below it |
| `Names.ScanSelectsDescendants` | internal/store/record.go:181-184 | for all strings the byte range from the reversed name plus "." up to the reversed name plus "/" selects exactly the label-wise descendants |
| `Names.ReverseLabels` | internal/store/store.go:158-164 | the in-place swap reverses the labels |
| `Names.ReverseNameInvolution` | internal/store/store.go:158-164 | reversing twice gives the name back |
| `Names.BelowIsLabelDescent` | internal/dns/handler.go:331-333 | the textual suffix test is descent by labels |
| `Validation.ValidateName` | internal/dns/names.go:8-41 | the nested loops accept exactly the valid names |
| `Validation.NormalizeName` | internal/store/store.go:143-152 | the result always lies in the zone |
| `Validation.NormalizedNameIs` | internal/store/store.go:143-152 | the name is the zone if and only if its normalised text is empty, "@" or the zone; a name below the zone stays; the labels of any other are put in front of those of the zone |
| `Validation.NormalizedZoneIs` | internal/store/store.go:139-141 | white space around the text and one final dot go, capitals become small letters, and nothing else changes |
| `Validation.ValidNameIs` | internal/dns/names.go:8-41 | exactly the names of 1 to 253 octets pass whose labels are 1 to 63 small letters, digits, "-" and "_" without "-" at an end, or "*" in front |
| `Validation.SecondNormalizationIsIdentity` | internal/store/store.go:139-152 | normalising a validated name and its zone again changes nothing |
| `Paging.WalkMissesNothing` | internal/store/record.go:129-154 | whatever is created and deleted between pages, a complete walk returns ids in strictly increasing order and every record that was there throughout |
| `Paging.PageIsGapless` | internal/store/record.go:129-154 | a page is ascending and skips nothing up to its token, or nothing at all without one |
| `Paging.PageIsFull` | internal/store/record.go:129-154 | a page has as many records as asked for or all there are, and a token exactly if there are more |
| `Paging.CollectAll` | cmd/sharddns/main.go:224-235 | against a table at rest the client's loop ends with the ordered listing of what the first token asks for |
| `Paging.ListingIsFull` | internal/store/record.go:129-154 | on any database a run of the service leaves, that listing is every record of the zone, in ascending order |
| `WireName.ParseNameMeans` | internal/dns/message.go:285-345 | for every buffer and offset parsing succeeds exactly when the bytes spell labels of at most 255 octets within the pointer limit, and returns those labels and an end past the start and inside the buffer |
| `WireName.RepackIsExpansion` | internal/dns/message.go:355-380 | when no decoded label contains a dot, packing the result is the pointer-free expansion in at most 255 octets |
| `WireName.DecodeName` | internal/dns/message.go:285-345 | the decoding loop ends on every input and computes the parse |
| `WireName.AppendPacked` | internal/dns/message.go:355-380 | the scan for dots appends the pointer-free form and fails exactly when the name cannot be packed |
| `WireName.PackableIs` | internal/dns/message.go:355-380 | a name can be packed exactly if, one final dot left out, it is empty or has at most 253 octets in labels of 1 to 63 |
| `WireName.ParsePacked` | internal/dns/message.go:285-380 | a packed name, wherever it lies, parses back to itself without one trailing dot, the root as "." |
| `RoundTrip.ParseEncode` | internal/dns/message.go:190-428 | packing then parsing is the identity on every message with packable names, counts and data in range with the OPT included and no OPT of its own, up to canonical names; no count guard rejects packed output |
| `RoundTrip.SectionRoundTrip` | internal/dns/message.go:253-283 | the same for one section, including its count guard |
| `Message.Pack` | internal/dns/message.go:382-428 | the appended buffer and rewritten counts are the encoding laid out in `Layout`, failing exactly when record data is too long |
| `Layout.HeaderOctets` | internal/dns/message.go:382-428 | octets 0 to 11 of a packed message are id, flags and the four counts, high octet first |
| `Layout.SectionOctets` | internal/dns/message.go:382-469 | after them come questions, answers, authority and additional records, each in order, and the eleven octets of EDNS last |
| `Layout.QuestionOctets` | internal/dns/message.go:398-410 | a question is its name, type and class |
| `Layout.RecordOctets` | internal/dns/message.go:471-486 | a record is its name, type, class, TTL, data length and data |
| `Layout.LabelOctets` | internal/dns/message.go:355-380 | a name is each label after an octet with its length, and a zero octet |
| `Message.AppendOpt` | internal/dns/message.go:455-469 | the OPT record is appended as specified |
| `Message.AppendRRs` | internal/dns/message.go:471-486 | records are appended in order, failing exactly on data over 65535 octets |
| `Message.AppendName` | internal/dns/message.go:347-353 | a name that cannot be packed is written as the root |
| `Message.ParseMessage` | internal/dns/message.go:190-251 | the offset-advancing code computes the parse whose octets `Layout` names |
| `Layout.ReadHeader` | internal/dns/message.go:190-201 | the header read is the first twelve octets, high octet first |
| `Layout.ReadQuestion` | internal/dns/message.go:205-225 | a question read is a name and the two numbers behind it |
| `Layout.ReadRecord` | internal/dns/message.go:253-283 | a record read is a name and the type, class, TTL, length and data behind it |
| `Layout.QueryReads` | internal/dns/message.go:190-251 | how one query packet with EDNS and DO is read |
| `Layout.ReplyReads` | internal/dns/message.go:285-345 | how one reply packet with a compressed owner is read |
| `Layout.PointerLimit` | internal/dns/message.go:325-340 | a pointer leads to its 14-bit offset, and a seventeenth is refused |
| `Message.DecodeSection` | internal/dns/message.go:253-283 | the section loop with its count guard computes the specified parse |
| `Udp.SentFits` | internal/dns/message.go:430-453 | with at most one question a datagram never exceeds the limit, which is 512 without EDNS and else the size, kept between 512 and 1232 |
| `Udp.TruncationIsAllOrNothing` | internal/dns/message.go:430-453 | TC is set if and only if the message without its additional section exceeds the limit; then answers and authority are empty, and otherwise both are complete; a message that fits is sent whole; question, id and EDNS always stay |
| `Udp.DatagramParses` | internal/dns/message.go:190-453 | the requestor parses exactly the message that was sent |
| `Udp.PackUdp` | internal/dns/message.go:430-453 | the stepwise shortening sends the specified message |
| `Udp.LimitHonoursRequestIff` | internal/dns/message.go:150-188 | the reply's limit stays within what the requestor advertised if and only if EDNS is off or at least 1232 was advertised |
| `RData.TxtRoundTrip` | internal/dns/rdata.go:278-303 | joining the length-prefixed strings gives the joined parts |
| `RData.PartSize` | internal/dns/rdata.go:278-303 | a part of length L takes L plus the larger of 1 and L/255 rounded up |
| `RData.StringOctets` | internal/dns/rdata.go:278-303 | the k-th string of a part starts at octet 256 k with its length, 255 but for the last, and holds the octets of the part from 255 k on |
| `RData.TxtNeverEmpty` | internal/dns/rdata.go:299-301 | no strings are written as one empty string |
| `RData.BuildTxt` | internal/dns/rdata.go:278-303 | the chunking loops build that encoding |
| `RData.ReadQuote` | internal/dns/rdata.go:336-363 | reading inverts the quoting of section 5.1 of RFC 1035 for any octets and returns exactly the remainder |
| `RData.QuotedExamples` | internal/dns/rdata.go:336-363 | how escaped quotes, backslashes and numbers are read, and three texts that are refused |
| `RData.ScanQuoted` | internal/dns/rdata.go:336-363 | the index loop computes that reading |
| `RData.StringsRoundTrip` | internal/dns/rdata.go:305-317 | any list of octet strings written in quoted form is read back |
| `RData.ScanStrings` | internal/dns/rdata.go:305-317 | the scanning loop computes that reading |
| `RData.TxtTextRoundTrip` | internal/dns/rdata.go:278-317 | from text form to wire and back no octet is lost, quoted or plain |
| `RData.TargetRoundTrip` | internal/dns/rdata.go:253-276 | the target of a record is read back in canonical form after the fixed fields of its type |
| `RData.SoaRoundTrip` | internal/dns/rdata.go:239-251 | both names and every number are read back from the encoded SOA |
| `RData.BuildSoa` | internal/dns/rdata.go:239-251 | the appended buffer is that encoding, failing exactly when a name cannot be packed |
| `RData.PackableAnyCase` | internal/api/service.go:231-241 | case does not decide whether a name can be packed, so names validated in lower case can be served as stored |

## Left out

- Cluster.StaleIsExcused: leaves out keys strictly above their own zone, for every one of which the property fails (`Invalidation.UnguardedEscapes`), and an astray entry stays excused until it is put right, since a misannounced delete does leave it wrong (`Invalidation.MisannouncedDeleteEscapes`).
- Cluster.QuietIsCoherent: speaks of cache contents; a caller that joins a load already in flight may be handed a value read before a write, and no freshness is claimed for it.
- Nameserver.AnswersAreTrue: all reads of one query come from one state of the data; a query that overlaps a commit may mix two.
- Resolution.Handler.Follow: takes the loop body as an extra ghost argument so that its proof need not unfold it; a lookup that is cancelled by the two-second timeout is a failed lookup.
- SqlStore.Store.CreateRecord: transactions are atomic steps, as the zone-row update serialises creators; ids lost to rollbacks are counted at the next create.
- Datagram.RequestorReads: says nothing of a datagram lost on the way, nor of TCP, where the same message is sent whole with a length in front.
- Api.Server.UpdateZone: read, merge and write follow each other here; the specification function takes any merged values, so interleaved updates, of which one may be lost, are among the runs, but no claim is made about the loser.
- The epoch and the hit and miss counters are unbounded; wrap-around of a 64-bit counter is not modelled.
- UDP and TCP sockets, worker pools and deadlines of the server.
- The event client beyond queues, disconnects and reconnects; an event whose publish failed counts as never delivered, so the instances it was for stay excused.
- The database driver, pooling and migrations.
- Single-flight sharing of loads: any number of concurrent loads per key is allowed instead.
- Generated protocol code, command line, configuration, logging, authentication and health endpoints.
- RDATA of A, AAAA, SSHFP, TLSA, DS, DNSKEY, CAA, NAPTR and HINFO: an encoder parameter, since it rests on library decoders.
- Case folding and white space outside ASCII.
- Page tokens as decimal text, and the listing of zones, which works like the listing of records.
