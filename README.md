# aiohttp-asyncmdnsresolver, modelled in Dafny

This project models the orchestration layer of `aiohttp-asyncmdnsresolver`. It is a DNS resolver for aiohttp that resolves `.local` names over multicast DNS (mDNS) through zeroconf. Every other name goes to aiohttp's own `AsyncResolver` (the "parent resolver").

There are two resolver variants:

- `AsyncMDNSResolver` asks only mDNS.
- `AsyncDualMDNSResolver` races mDNS against the parent resolver. It merges what finished, de-duplicated, or raises one combined error.

Modules, one per file:

- `wrappers.dfy`: `Option` and `Result`.
- `records.dfy`: the `ResolveResult` record and `_to_resolve_result`.
- `routing.dfy`: the `.local` routing predicate, trailing-dot normalisation and `_make_resolver`.
- `lookup.dfy`: address extraction, the timeout gate, `_resolve_mdns`, and `AsyncMDNSResolver.resolve` as the function `Lookup.Resolve`.
- `race.dfy`: the dual-path engine. The wait rule, the merge loop and the final decision are modelled, and `AsyncDualMDNSResolver.resolve` is the function `Race.Resolve`. The merge loop is an imperative method (`Race.Merge`, with its inner loop `Race.AddUnseen`). It is proved equal to `Race.KeepFirst`, a first-occurrence de-duplication, and the merge properties are lemmas about `KeepFirst`.
- `resolver.dfy`: the resolver object, a class. It holds the `_aiozc` handle, the `_aiozc_owner` flag, the timeout, `close()` and `resolve`. Its dual `resolve` runs the `Merge` method and is proved equal to `Race.Resolve`.

External collaborators are inputs. None of them is executed:

- The parent resolver's answer for the call is an input.
- What zeroconf stores in a query object is an input: after the cache load, and after the multicast request (`Lookup.Discovery`, `Lookup.Answers`).
- The scheduler's part is an input: which racing task had finished when the first-completion wait returned (`Race.FirstCompleted`).

Socket constants take their Linux values: `AF_INET = 2`, `AF_INET6 = 10`, `AF_UNSPEC = 0`, `AI_NUMERICHOST = 4`, `AI_NUMERICSERV = 0x400`.

## Model

| member | source | states |
|---|---|---|
| Records.ToResolveResult | src/aiohttp_asyncmdnsresolver/_impl.py:37-55 | the record copies hostname, port and address text; family is AF_INET exactly for IPv4 and AF_INET6 exactly for IPv6; proto is 0; flags are exactly the bitwise OR of AI_NUMERICHOST and AI_NUMERICSERV |
| Records.AddressRecoverable | src/aiohttp_asyncmdnsresolver/_impl.py:44-55 | two addresses that map to the same record are the same address |
| Records.KeyOf | src/aiohttp_asyncmdnsresolver/_impl.py:179-183 | definition: the de-duplication key of a record is its (hostname, port, host) triple |
| Records.SameKey | src/aiohttp_asyncmdnsresolver/_impl.py:179-183 | two records share a key exactly when hostname, port and host agree; family, proto and flags take no part |
| Routing.EndsWith | src/aiohttp_asyncmdnsresolver/_impl.py:124 | definition of `str.endswith`: the suffix is no longer than the text and equals its last characters |
| Routing.EndsWithPointwise | src/aiohttp_asyncmdnsresolver/_impl.py:124 | the suffix test holds exactly when each of the last characters equals the matching suffix character, so it is case-sensitive |
| Routing.IsMdnsName | src/aiohttp_asyncmdnsresolver/_impl.py:124-125 | definition of the routing test shared by both variants (also _impl.py:148): the name ends in `.local` or `.local.` |
| Routing.MdnsUpToTrailingDot | src/aiohttp_asyncmdnsresolver/_impl.py:124-125 | a name takes the mDNS path exactly when, after dropping at most one trailing dot, it ends in `.local` |
| Routing.SuffixedNamesAreMdns | src/aiohttp_asyncmdnsresolver/_impl.py:124-125 | every name ending in `.local` or `.local.` takes the mDNS path |
| Routing.MdnsNamesAreSuffixed | src/aiohttp_asyncmdnsresolver/_impl.py:124-125 | every name on the mDNS path is a prefix plus `.local` or `.local.` |
| Routing.UpperCaseSuffixIsNotMdns | src/aiohttp_asyncmdnsresolver/_impl.py:124 | the suffix check is case-sensitive: `.LOCAL` and `.Local.` names are delegated |
| Routing.Normalise | src/aiohttp_asyncmdnsresolver/_impl.py:77-79 | the normalised name ends in `.`; it is the host itself or the host plus one `.`; a dotted host is unchanged |
| Routing.NormaliseIdempotent | src/aiohttp_asyncmdnsresolver/_impl.py:77-79 | normalising twice is normalising once |
| Routing.NormaliseIgnoresTrailingDot | src/aiohttp_asyncmdnsresolver/_impl.py:77-79 | `x` and `x.` normalise to the same name, `x.` |
| Routing.NormalisePreservesRouting | src/aiohttp_asyncmdnsresolver/_impl.py:77-79 | normalising keeps a name's routing both ways, and a normalised mDNS name ends in `.local.` |
| Routing.MakeResolver | src/aiohttp_asyncmdnsresolver/_impl.py:24-31 | a query is built exactly for AF_INET, AF_INET6 and AF_UNSPEC, with the IPv4-only, IPv6-only and dual-stack class respectively, on the normalised name; any other family fails |
| Lookup.AddressesFromInfoOrRaise | src/aiohttp_asyncmdnsresolver/_impl.py:81-94 | fails with "MDNS lookup failed" exactly when the query reports no address for the family's IP version; otherwise one record per address, in order, with the query's server name, its port, the address text and the matching family |
| Lookup.UnspecifiedFamilyOrder | src/aiohttp_asyncmdnsresolver/_impl.py:85-93 | for AF_UNSPEC the IPv4 records come first, then the IPv6 records, each in order |
| Lookup.IsFalsy | src/aiohttp_asyncmdnsresolver/_impl.py:98 | Python truthiness of the configured timeout: falsy exactly when it is absent or zero |
| Lookup.RequestTimeoutMillis | src/aiohttp_asyncmdnsresolver/_impl.py:96-100 | no request exactly when the timeout is falsy (absent or zero); otherwise the request gets the timeout times 1000 |
| Lookup.ResolveMdnsByRequest | src/aiohttp_asyncmdnsresolver/_impl.py:96-100 | a falsy timeout answers false; otherwise the request's own answer |
| Lookup.ResolveMdns | src/aiohttp_asyncmdnsresolver/_impl.py:102-107 | records the request the timeout allows; extracts from the post-request answers, or from the cache answers when no request is sent |
| Lookup.Resolve | src/aiohttp_asyncmdnsresolver/_impl.py:120-129 | a name without the suffix gets the parent's answer and sends no request; a request is sent exactly for a `.local` name with a listed family, an open handle, a cache miss and a truthy timeout; every record of a success carries the normalised name (the lemmas below state each case) |
| Lookup.NonMdnsNamesDelegate | src/aiohttp_asyncmdnsresolver/_impl.py:124-125 | a name without the suffix gets the parent's answer unchanged, and no request is sent |
| Lookup.MdnsNamesIgnoreParent | src/aiohttp_asyncmdnsresolver/_impl.py:124-129 | for a `.local` name the single-path resolver's answer does not depend on the parent resolver |
| Lookup.CacheHitSendsNoRequest | src/aiohttp_asyncmdnsresolver/_impl.py:127-128 | a cache hit sends no request; its answer depends on neither the timeout nor any later request data |
| Lookup.FalsyTimeoutSendsNoRequest | src/aiohttp_asyncmdnsresolver/_impl.py:96-107 | with a falsy timeout and an empty cache miss, no request is sent and the lookup raises "MDNS lookup failed" |
| Lookup.ClosedResolverFailsMdnsNames | src/aiohttp_asyncmdnsresolver/_impl.py:114-127 | once the handle is dropped, a `.local` lookup with a listed family raises AttributeError before any cache load or request |
| Lookup.UnknownFamilyFails | src/aiohttp_asyncmdnsresolver/_impl.py:76 | a `.local` lookup with an unlisted family raises KeyError |
| Lookup.RecordsCarryNormalisedName | src/aiohttp_asyncmdnsresolver/_impl.py:126-129 | every record of a successful mDNS lookup carries the normalised name, ending in `.` |
| Lookup.TrailingDotIrrelevant | src/aiohttp_asyncmdnsresolver/_impl.py:120-129 | `x.local` and `x.local.` resolve identically, and the name both normalise to is `x.local.` |
| Lookup.UnspecifiedLookupScenario | tests/test_impl.py:50-68 | `localhost.local` with AF_UNSPEC and a request that learns 127.0.0.1 and ::1 gives those two records, in that order, named `localhost.local.` |
| Race.TaskOf | src/aiohttp_asyncmdnsresolver/_impl.py:172-178 | a finished task is failed exactly when its outcome is an error, carrying that error's message; otherwise it succeeded with its records |
| Race.AtFirstCompletion | src/aiohttp_asyncmdnsresolver/_impl.py:162 | after the first-completion wait at least one task is finished, and each finished task holds its eventual state |
| Race.WaitForOther | src/aiohttp_asyncmdnsresolver/_impl.py:162-166 | after the wait step at least one task is finished; if either failed, both are finished; a task still pending has a partner that succeeded; without a failure nothing is waited for |
| Race.Join | src/aiohttp_asyncmdnsresolver/_impl.py:202-205 | no parts give the empty text; one part gives that part; two parts give first, separator, second; with more than one part the first part and the separator lead |
| Race.Decide | src/aiohttp_asyncmdnsresolver/_impl.py:199-206 | succeeds exactly when the merge is non-empty, and then returns the merge itself; otherwise raises one OSError whose message is the collected messages joined by ", " |
| Race.Engine | src/aiohttp_asyncmdnsresolver/_impl.py:162-206 | a failure is always an OSError; a success is non-empty, repeats no (hostname, port, host) key, and holds only records of the two tasks' final successes |
| Race.KeepFirst | src/aiohttp_asyncmdnsresolver/_impl.py:178-186 | the merge is no longer than its input and keeps only input records |
| Race.FirstWithKey | src/aiohttp_asyncmdnsresolver/_impl.py:184-186 | the first record of the input with a given key has that key and comes from the input |
| Race.KeepFirstKeys | src/aiohttp_asyncmdnsresolver/_impl.py:178-186 | every key of the input appears in the merge, and no other key |
| Race.KeepFirstDistinct | src/aiohttp_asyncmdnsresolver/_impl.py:178-186 | no two merged records share a (hostname, port, host) key |
| Race.KeepFirstFirstWins | src/aiohttp_asyncmdnsresolver/_impl.py:184-186 | every merged record is the first record of the input with its key |
| Race.KeepFirstOfDistinct | src/aiohttp_asyncmdnsresolver/_impl.py:178-186 | input without repeated keys is merged unchanged |
| Race.KeepFirstPrefix | src/aiohttp_asyncmdnsresolver/_impl.py:170-186 | merging `a` then `b` starts with the merge of `a`, and nothing after it repeats a key of `a` |
| Race.KeepFirstNonEmpty | src/aiohttp_asyncmdnsresolver/_impl.py:178-186 | a non-empty input gives a non-empty merge |
| Race.AddUnseen | src/aiohttp_asyncmdnsresolver/_impl.py:178-186 | the inner loop over one task's records extends the merge and the seen-key set exactly as the de-duplication specifies |
| Race.MergeTask | src/aiohttp_asyncmdnsresolver/_impl.py:171-186 | one finished or pending task extends the merge and the seen-key set exactly as the de-duplication specifies, and appends its failure message, if any, to the errors |
| Race.Merge | src/aiohttp_asyncmdnsresolver/_impl.py:167-188 | the loop's records are the first-occurrence merge of the finished successes in task order; its errors are the failures' messages in task order; it cancels exactly the pending tasks |
| Race.MergedTasks | src/aiohttp_asyncmdnsresolver/_impl.py:167-188 | merging the two tasks repeats no key, keeps every key of a finished success, puts the mDNS records first, and collects the mDNS error before the DNS error |
| Race.SuccessIsReturned | src/aiohttp_asyncmdnsresolver/_impl.py:199-200 | a non-empty success the engine sees is returned even if the other path failed or was cancelled: an mDNS success's de-duplicated records lead the result, and every key of a DNS success is in it |
| Race.MdnsRescuesFailedDns | src/aiohttp_asyncmdnsresolver/_impl.py:165-166 | when DNS fails and mDNS succeeds, the engine waits for mDNS and returns its records de-duplicated, whichever task finished first |
| Race.FastMdnsSuccessWins | src/aiohttp_asyncmdnsresolver/_impl.py:162-200 | an mDNS success seen first is returned de-duplicated without waiting for DNS |
| Race.FastDnsSuccessWins | src/aiohttp_asyncmdnsresolver/_impl.py:162-188 | a DNS success seen first is returned de-duplicated and alone: the engine does not wait, and the still-running mDNS task is cancelled |
| Race.DnsRescuesFailedMdns | src/aiohttp_asyncmdnsresolver/_impl.py:163-166 | when mDNS fails, the engine waits for DNS and returns DNS's records de-duplicated, whichever task finished first |
| Race.BothFailuresCombined | src/aiohttp_asyncmdnsresolver/_impl.py:202-206 | both paths failing raises one OSError whose message is the mDNS message, ", ", then the DNS message |
| Race.SingleFailureRaised | src/aiohttp_asyncmdnsresolver/_impl.py:162-206 | one failed path and one empty success raise the failure's message alone; if the empty success finished first, the failed path was still running and is cancelled, and the message is empty |
| Race.SimultaneousSuccessesMerged | src/aiohttp_asyncmdnsresolver/_impl.py:170-200 | two successes finished together are merged once per key, mDNS first, with every key of both |
| Race.EmptyMergeRaisesCollectedErrors | src/aiohttp_asyncmdnsresolver/_impl.py:199-206 | an empty merge raises the collected messages of the failed paths joined by ", " |
| Race.Resolve | src/aiohttp_asyncmdnsresolver/_impl.py:144-206 | a name without the suffix gets the parent's answer and nothing races; a request is sent exactly when the single-path resolver would send one (lemmas below) |
| Race.DualAgreesUntilRace | src/aiohttp_asyncmdnsresolver/_impl.py:148-152 | for a suffix-less name, an unlisted family, a closed handle or a cache hit, the dual variant answers exactly as the single-path one |
| Race.DualCacheHitSendsNoRequest | src/aiohttp_asyncmdnsresolver/_impl.py:151-152 | in the dual variant a cache hit sends no request, and its answer depends on neither the timeout, the later request data nor the parent resolver |
| Race.NonMdnsNamesDelegate | src/aiohttp_asyncmdnsresolver/_impl.py:148-149 | in the dual variant a name without the suffix gets the parent's answer unchanged, and nothing races |
| Race.DnsAnswerScenario | src/aiohttp_asyncmdnsresolver/_impl.py:150-200 | an AF_INET lookup whose mDNS request finds nothing while DNS returns one record yields exactly that record |
| Resolver.MdnsResolver.constructor | src/aiohttp_asyncmdnsresolver/_impl.py:61-72 | the resolver owns the handle exactly when none was passed in, and then creates a fresh open one; otherwise it uses the given handle |
| Resolver.MdnsResolver.Close | src/aiohttp_asyncmdnsresolver/_impl.py:109-114 | closes the handle only when owned, never changes a handle it does not own, closes the parent and always drops the handle; on an owning resolver whose handle is already dropped it raises AttributeError |
| Resolver.MdnsResolver.Resolve | src/aiohttp_asyncmdnsresolver/_impl.py:117-206 | takes port 0 and AF_INET by default; the object's `resolve` equals `Lookup.Resolve` or `Race.Resolve` on its own timeout and handle; suffix-less names get the parent's answer; after close a `.local` name raises AttributeError |
| Resolver.ExternalHandleLifecycle | tests/test_impl.py:198-205 | with an external handle, closing leaves the owner flag false, drops the reference and leaves the handle open |
| Resolver.OwnedHandleLifecycle | tests/test_impl.py:208-214 | with its own handle the resolver is the owner; closing it closes the handle and drops the reference; a second close raises AttributeError |

## Left out

- Asyncio machinery is not modelled: task creation, `eager_start`, the timing of `asyncio.wait`, awaiting a cancelled task, and re-raising an outer `CancelledError`. Which task had finished first is an input, and each task's eventual outcome is an input.
- Zeroconf internals are not modelled (`load_from_cache`, `async_request`, `ip_addresses_by_version`, `AsyncZeroconf()`, `async_close`). What a query holds after the cache load and after the request is an input. Only whether a handle is closed is tracked. The IPv4-before-IPv6 order for all versions is how zeroconf lists addresses, and is taken as given.
- The query's server name is the normalised name it was built with, as zeroconf's query classes set it. Its port is an opaque input. A `None` server or port is not modelled. The code builds the query from the name alone (`resolver_class(host)`, src/aiohttp_asyncmdnsresolver/_impl.py:79) and takes each record's port from `info.port` (src/aiohttp_asyncmdnsresolver/_impl.py:91), so the requested port is not carried into mDNS records; tests/test_impl.py:88 expects port 80 there, which does not follow from this code.
- The parent `AsyncResolver.resolve` and `close` are foreign. Resolve is an input result whose failure is an `OSError` message, and close is a flag.
- The flag word is a 32-bit word (`bv32`) rather than Python's unbounded `int`; the value `0x404` fits.
- Address text (`ipaddress.compressed`) is opaque text carried by the address.
- The timeout is a real number, not a float. Its falsiness is "absent or zero".
- Errors are carried as their message strings, standing for `exc.strerror or str(exc)`. An exception other than `OSError` from the request or from the parent resolver is not modelled. The KeyError's message text is not modelled either.
- Lookup.AddressesFromInfoOrRaise: requires the family to be listed in its IP-version table. Its only callers have already looked the family up in the query-class table, which lists the same three families, so the source's KeyError there cannot happen.
- The suffix check is case-sensitive, as `str.endswith` is, so `x.LOCAL` is delegated to the parent resolver (`Routing.UpperCaseSuffixIsNotMdns`).
- `examples/run.py` is an HTTP driver and is not part of this model.
