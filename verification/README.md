# Verified model of boto's shared layer

boto is an AWS client library. Below its service modules lies a shared layer
of small algorithms with real invariants; this project models that layer in
Dafny and proves what the code keeps, computes and promises. Where a promise
does not hold in general, the exact condition under which it does is proved as
an if-and-only-if, with an input on which it fails.

| file | what it models |
|---|---|
| `RecencyList.dfy` | an LRU cache as a recency list; theorems over whole get/set traces |
| `LRUCache.dfy` | the cache itself: a dict of nodes and a doubly linked list on the heap, refined to the recency list |
| `SaxHandler.dfy`, `SaxCalls.dfy` | the SAX stack machine, the recursive tree walk it computes, and the calls it makes to its nodes |
| `JsonResponse.dfy`, `JsonNodes.dfy` | the `Element` and `ListElement` nodes: what a document denotes, and the handlers as methods |
| `Markup.dfy` | the XML subset the CloudFront printers write: rendering, reading, events |
| `CloudFrontConfig.dfy`, `CloudFrontNodes.dfy` | `DistributionConfig`: printing, event handlers, and the round trip through the stack machine |
| `PoolQueues.dfy`, `ConnectionPools.dfy` | the timed queue of a host, and the pools that hold such queues |
| `PoolThreads.dfy` | any number of threads interleaving the pool's critical sections |
| `RetryLoop.dfy` | `_mexe`: attempts, redirects, backoff, what is raised, and where its connection goes |
| `StorageUris.dfy` | parsing and printing `s3://` and `gs://` URIs |
| `SigV4.dfy`, `Ordering.dfy` | canonical query string, URI and headers of Signature Version 4; sorting of strings |
| `RequestPath.dfy` | `get_path` |
| `ComplexParam.dfy` | `build_complex_param` |
| `ComputeHash.dfy` | `compute_hash` |
| `Text.dfy`, `Wrappers.dfy` | Python string operations and numerals, with what they do spelled out; Option and Result |

Time is an arbitrary clock, read afresh wherever the code calls `time.time()`.
Whether a pooled connection is ready, what a send does, what `random.random()`
returns, how many bytes a `read` delivers and the order in which a dict lists
its keys are all arbitrary too. Exceptions are results.

Code that updates objects is modelled by classes and methods, each proved
against a function of the old state; the theorems are lemmas about these
functions.

## Where the naive reading fails

The model follows the code in each of these places:

- A redirect is not a try: `_mexe` runs for ever iff no outcome ends the call
  and at most num_retries outcomes ever count as tries (`NeverEndsIff`), as
  when every answer is a redirect (`RedirectsNeverFinish`).
- A connection fetched for a redirect goes back under the scheme of
  `self.is_secure`; the pool stays faithful iff the last reconnecting attempt
  kept the scheme (`StoredUnderOwnKeyIff`, `Mexe`, `RedirectMisfiles`).
- `boto.handler.XmlHandler` pops early when a node declines a child with the
  node's own name; `DisciplineIsExact` shows that this is the only obstacle,
  `DeclinedRootPopsRoot` that it is one, and `SafeForAllIff` which documents
  are safe whatever the nodes accept.
- `canonical_headers` sorts whole lines and `signed_headers` sorts names; they
  line up iff no name has another as a proper prefix followed by a character
  that sorts before `:` (`HeadersAligned`, `PrefixNamesMisalign`). Being a
  prefix alone does no harm: letters sort after the colon.
- A storage URI with generation 0, or with an empty version id, is printed
  without it (`RoundTripIff`, `GenerationZeroIsLost`); a config's identity
  object is printed as a URI (`IdentityObjectIsLost`).
- In a list, a tag that get_name maps to `element_name` overwrites the list's
  own name, and the placeholder of an empty item then stays
  (`ElementNameTagKeepsPlaceholder`); `PlaceholdersRemovedIff` says when.
- `compute_hash` treats `size=0` as no size, and with a buffer size of 0 it
  hashes nothing unless the size is negative (`Hashed`).
- `build_complex_param` merges `{'a.b': v}` with `{'a': {'b': v}}`, and drops
  empty sub-dicts. Over a set of keys it tells all dicts apart, but for these,
  iff no two paths of keys spell the same name (`FlatteningIffClear`,
  `DottedKeysCollide`).

## Model

| member | source | states |
|---|---|---|
| RecencyList.RunInvariant | boto/utils.py:717-768 | after any trace of gets and sets the cache holds at most `capacity` entries with distinct keys |
| RecencyList.StepKeys | boto/utils.py:717-768 | a successful access, hit or miss, puts its key in front of the other keys and drops what does not fit |
| RecencyList.InclusionOverRuns | boto/utils.py:717-768 | the entries of a cache are a subsequence of those of a larger cache after the same trace |
| RecencyList.MoreCapacityKeepsHits | boto/utils.py:717-720 | more capacity never turns a hit into a miss nor changes its value |
| RecencyList.RunIsMostRecent | boto/utils.py:722-768 | the cached keys are the `capacity` most recently accessed ones, in that order |
| RecencyList.SinceIsSuffix | boto/utils.py:717-731 | `Since` is the log after the last access to a key, which the reuse distance counts over |
| RecencyList.CachedIsLastSet | boto/utils.py:717-731 | a hit returns the last value set for its key |
| RecencyList.ReuseDistanceDecidesHits | boto/utils.py:717-768 | a key is cached, with the value last set, iff it was set and fewer than `capacity` distinct other keys were successfully accessed since its last access |
| LRUCaches.LRUCache.constructor | boto/utils.py:699-703 | a new cache is empty and well formed |
| LRUCaches.LRUCache.GetItem | boto/utils.py:717-720 | refines the recency list's Get: the value found or KeyError, the hit entry moved to the front, the heap invariant kept |
| LRUCaches.LRUCache.SetItem | boto/utils.py:722-731 | refines the recency list's Set: overwrite moves to the front, insertion adds in front and evicts the last key |
| LRUCaches.LRUCache.AddItem | boto/utils.py:724-727 | a new key goes in front, cut to the capacity, as a fresh node |
| LRUCaches.LRUCache.Overwrite | boto/utils.py:728-731 | overwriting an entry changes its value, moves it to the front and keeps the size within the capacity |
| LRUCaches.LRUCache.InsertItem | boto/utils.py:736-744 | a new entry goes in front, and overflow drops the last entries |
| LRUCaches.LRUCache.PushFront | boto/utils.py:736-743 | linking an item in front of the head keeps the list doubly linked, with the item first |
| LRUCaches.LRUCache.ManageSize | boto/utils.py:746-753 | exactly the first `capacity` entries stay |
| LRUCaches.LRUCache.DropTail | boto/utils.py:748-753 | one round of eviction removes exactly the last item from the list and its key from the dict |
| LRUCaches.LRUCache.UpdateItem | boto/utils.py:755-768 | the entry at p moves to the front, the others keep their order, the dict still indexes the same items |
| LRUCaches.LRUCache.Relink | boto/utils.py:755-768 | the pointer updates leave a doubly linked list with the item moved to the front |
| LRUCaches.LRUCache.Unlink | boto/utils.py:759-764 | splicing an item out leaves the others doubly linked in order |
| LRUCaches.LRUCache.Contains | boto/utils.py:705-706 | membership is membership in the recency list |
| LRUCaches.LRUCache.Len | boto/utils.py:714-715 | the length is the number of entries, and at most the capacity |
| LRUCaches.LRUCache.Iterate | boto/utils.py:708-712 | iteration yields the keys, most recently used first |
| LRUCaches.IndexMoved | boto/utils.py:755-768 | moving an item within the list leaves the dict's index of the items unchanged |
| SaxHandler.XmlHandler.constructor | boto/handler.py:29-32 | the stack holds only the root |
| SaxHandler.XmlHandler.StartElement | boto/handler.py:34-38 | the top node sees the event, and its child, if it accepts, is pushed; an empty stack raises |
| SaxHandler.XmlHandler.EndElement | boto/handler.py:40-46 | the top node sees the event and is popped when its stack name is the tag's |
| SaxHandler.XmlHandler.Characters | boto/handler.py:48-49 | text accumulates |
| SaxHandler.XmlHandler.Parse | boto/handler.py:34-49 | delivering events one by one runs the machine, and fails iff some event finds the stack empty |
| SaxHandler.MachineIsWalk | boto/handler.py:34-49 | if no node declines a child with its own stack name, the machine computes the recursive walk of the tree, its stack restored |
| SaxHandler.ParseIsWalk | boto/handler.py:29-49 | the same for a whole document from the root |
| SaxHandler.DisciplineIsExact | boto/handler.py:40-46 | every element leaves the stack as it found it iff no node declines a child with the node's own stack name |
| SaxHandler.DeclinedRootPopsRoot | boto/handler.py:40-46 | a root that declines an element called root is popped by it, and the next event raises IndexError |
| SaxHandler.NestingIsDisciplined | boto/handler.py:34-46 | documents that never nest an element in one of the same name satisfy that condition whatever the nodes accept |
| SaxCalls.CallsNest | boto/handler.py:34-46 | the nodes are called for exactly the document's tags, in order; each start and end of an element reaches the node of the innermost open element that has one, and endNode is called once on each pushed node, right after the end of the element it accepted, iff no node declines a child with the node's own stack name |
| SaxCalls.EarlyPop | boto/handler.py:40-46 | the endNode that follows the end of a declined element is refused by that account |
| SaxCalls.SafeForAllIff | boto/handler.py:34-46 | a document keeps the condition whatever the nodes accept iff no element is inside one of the same name and none is called root |
| JsonResponse.AlwaysDisciplined | boto/jsonresponse.py:93-109 | `Element` and `ListElement` satisfy the stack condition on every document |
| JsonResponse.WalkMeaning | boto/jsonresponse.py:58-168 | handling the children of a node has the effect on the objects it reaches that the document denotes, and none on others |
| JsonResponse.ElemMeaning | boto/jsonresponse.py:93-168 | handling one child element changes its parent as the element's denotation says |
| JsonResponse.ParseMeaning | boto/jsonresponse.py:27-168 | parsing any document from a bare `Element` restores the stack and yields the recursive denotation, whatever the shared name stack held |
| JsonResponse.ParseDocument | boto/jsonresponse.py:27-56 | the handler run on a document builds its denotation and never finds the stack empty |
| JsonResponse.ContentInOrder | boto/jsonresponse.py:93-168 | the children of a node take effect one after the other, and text between them has none |
| JsonResponse.TailAfter | boto/handler.py:48-49 | an element's own text is what follows its last child; what stands before it is dropped |
| JsonResponse.TailText | boto/handler.py:48-49 | adjacent pieces of text are put together |
| JsonResponse.TextReplacesIff | boto/jsonresponse.py:111-119 | in a dict, an element that is no list denotes the dict of its children iff its own text is all white space, and else that text without the white space around it |
| JsonResponse.TextInList | boto/jsonresponse.py:111-168 | in a list, an item is its dict and then its text if not blank; a declined tag becomes an attribute with its text unstripped |
| JsonResponse.ListNameIff | boto/jsonresponse.py:95-100 | a tag is a list iff it is some text followed by a list marker |
| JsonResponse.ListChildren | boto/jsonresponse.py:95-146 | a list is stored under its name, in a dict as an entry and in a list as an attribute |
| JsonResponse.IndentedIsDict | boto/jsonresponse.py:93-119 | the spaces and line breaks of an indented document leave no trace: `<User>` around an indented `<Id>x</Id>` is the dict of a dict |
| JsonResponse.NonEmptyAt | boto/jsonresponse.py:158-166 | a list loses its empty dicts, wherever they stand, and nothing else |
| JsonResponse.ContentName | boto/jsonresponse.py:139-168 | the `element_name` a list ends up with is the last one the tags of its own scope wrote, by recursion over the tree |
| JsonResponse.PlaceholdersRemovedIff | boto/jsonresponse.py:157-168 | the end of a list removes its empty Elements iff it still has its own name by then or has none to remove |
| JsonResponse.PlaceholdersRemoved | boto/jsonresponse.py:157-166 | if no tag in the list's own scope is spelled as its `element_name`, its end removes every empty `Element` and nothing else |
| JsonResponse.ElementNameTagKeepsPlaceholder | boto/jsonresponse.py:157-168 | a tag mapped to `element_name` renames the list, and a placeholder stays |
| JsonResponse.TextListMeaning | boto/jsonresponse.py:111-166 | a list of non-blank text members is the list of their stripped texts, in order |
| JsonNodes.Nodes.ElementStart | boto/jsonresponse.py:93-109 | in place: the name is pushed, the child object is made and stored under its name, and is the one returned |
| JsonNodes.Nodes.ListStart | boto/jsonresponse.py:139-155 | in place: a list becomes an attribute, an item is appended with its own name stack, any other tag is declined |
| JsonNodes.Nodes.ElementEnd | boto/jsonresponse.py:111-119 | in place: the name is popped and non-blank text replaces the element in its parent dict or is appended to its parent list |
| JsonNodes.Nodes.ListEnd | boto/jsonresponse.py:157-168 | in place: at its own end tag a list loses all empty Elements; any other tag becomes an attribute |
| JsonNodes.Nodes.EmptyOnes | boto/jsonresponse.py:160-164 | the first loop collects exactly the items that are empty Elements, in order |
| JsonNodes.RemoveFirstKeeps | boto/jsonresponse.py:165-166 | each `remove` takes away one empty Element and nothing else |
| JsonNodes.Handler.Handle | boto/jsonresponse.py:34-50 | one event, dispatched to the node on top of the stack, is a step of the stack machine; an empty stack raises |
| JsonNodes.Parse | boto/jsonresponse.py:27-56 | a parse that updates the nodes in place restores the stack, and its root holds what the document denotes |
| Markup.LexRender | boto/cloudfront/distribution.py:109-142 | reading rendered markup gives the events of the tree it was rendered from, for text that needs no escaping |
| Markup.RunPieces | boto/handler.py:48-49 | delivering text in pieces makes no difference to the machine |
| CloudFrontConfig.ToXml | boto/cloudfront/distribution.py:109-142 | the text printed is the document of the config's tree; printing raises iff a custom origin's port is not a number |
| CloudFrontConfig.DocumentPrinted | boto/cloudfront/distribution.py:109-142 | the document of any config, tag by tag and line by line, as a string: every tag name, the order of the elements, which are left out, and how each value is shown |
| CloudFrontConfig.S3OriginToXml | boto/cloudfront/origin.py:72-79 | the text printed for an S3 origin is the rendering of its tree |
| CloudFrontConfig.CustomOriginToXml | boto/cloudfront/origin.py:142-149 | the same for a custom origin; a port that is not a number raises |
| CloudFrontConfig.AddSigners | boto/cloudfront/distribution.py:127-131 | the signer loop appends one element per signer, `Self` without content |
| CloudFrontConfig.AddCnames | boto/cloudfront/distribution.py:115-116 | the CNAME loop appends one element per alias, in order |
| CloudFrontConfig.ParseConfig | boto/cloudfront/distribution.py:144-175 | parsing a text runs the stack machine over its events into a new config |
| CloudFrontConfig.EnabledRead | boto/cloudfront/distribution.py:165-169 | `Enabled` is true iff its text is the word true in any mixture of cases |
| CloudFrontConfig.PortRead | boto/cloudfront/origin.py:127-136 | a port is read as a number from digits, after a sign or without one, with white space around them |
| CloudFrontConfig.PortKept | boto/cloudfront/origin.py:127-136 | any other text is kept as it is |
| Numerals.ParseIntReads | boto/cloudfront/origin.py:127-136 | int() takes digits with an optional sign and white space around them |
| Numerals.ParseIntOnly | boto/cloudfront/origin.py:127-136 | int() takes nothing else |
| Numerals.ValueStep | boto/cloudfront/origin.py:127-136 | a numeral is read to base ten, one digit at a time |
| Numerals.DigitsPlain | boto/cloudfront/origin.py:142-149 | a number is printed without leading zeros |
| CloudFrontConfig.WalkBody | boto/cloudfront/distribution.py:144-175 | the handlers turn the printed tree into the config's canonical form, field by field |
| CloudFrontConfig.SoundBody | boto/cloudfront/distribution.py:109-142 | the printed tree needs no escaping and never nests a tag in one of the same name |
| CloudFrontConfig.PrintThenParse | boto/cloudfront/distribution.py:109-175 | printing and parsing any config whose values need no escaping restores the handler's stack and yields the canonical form |
| CloudFrontConfig.RoundTripIff | boto/cloudfront/distribution.py:109-175 | every field comes back iff the signers are absent or not empty, the DNS name and policy are set, the identity is a non-empty URI, and the root object is not empty |
| CloudFrontConfig.IdentityObjectIsLost | boto/cloudfront/origin.py:25-79 | an identity given as an object comes back as the URI printed for it |
| CloudFrontConfig.AnIdentityIsLost | boto/cloudfront/origin.py:25-79 | a concrete config that does not come back |
| CloudFrontNodes.TrustedSignersNode.EndElement | boto/cloudfront/signers.py:54-58 | the node appends `Self` or the account number to itself |
| CloudFrontNodes.LoggingNode.EndElement | boto/cloudfront/logging.py:31-37 | bucket or prefix is set, and other tags touch neither |
| CloudFrontNodes.OriginNode.EndElement | boto/cloudfront/origin.py:64-140 | one field is set per known tag, ports as numbers where possible; other tags touch none |
| CloudFrontNodes.DistributionConfigNode.StartElement | boto/cloudfront/distribution.py:144-158 | a known tag installs a new child object, and that very object is returned |
| CloudFrontNodes.DistributionConfigNode.EndElement | boto/cloudfront/distribution.py:160-175 | one field is set per known tag, CNAMEs appended; other tags touch none |
| CloudFrontNodes.EndInChild | boto/cloudfront/distribution.py:144-158 | an event that reaches a child changes the config that holds it as the handler function says |
| CloudFrontNodes.Handle | boto/handler.py:34-49 | one event, dispatched to the object on top of the stack, is a step of the stack machine over the config's view; an empty stack raises |
| CloudFrontNodes.ParseEvents | boto/cloudfront/distribution.py:144-175 | a parse into these objects fails iff the stack machine does, and the config then reads as what the machine builds |
| CloudFrontNodes.ParseText | boto/cloudfront/distribution.py:144-175 | the same for a text, whose config is the one the round trip is stated for |
| PoolQueues.CleanIsFilterIff | boto/connection.py:183-199 | on any queue, under a nondecreasing clock, dropping stale heads keeps exactly the entries not stale at the last look iff no stale one is behind a fresh one |
| PoolQueues.CleanIsFilter | boto/connection.py:183-199 | so it does on every sorted queue |
| PoolQueues.CleanKeepsExactly | boto/connection.py:183-199 | on a sorted queue, an entry is kept iff its time plus the duration is no less than the clock at the last look, and those kept are the last ones |
| PoolQueues.FreshHeadIsReused | boto/connection.py:140-199 | a head whose time plus the duration is no less than the clock keeps its queue whole, and get returns it if it is ready |
| PoolQueues.StaleHeadIsDropped | boto/connection.py:183-190 | a head whose time is up is dropped |
| PoolQueues.CleanIsSuffix | boto/connection.py:183-190 | cleaning drops a prefix, whatever the clock does |
| PoolQueues.ScanFindsFirstReady | boto/connection.py:140-158 | the loop of get takes out the first ready entry and moves those before it to the back, in order |
| PoolQueues.FirstReadyIsFirst | boto/connection.py:140-158 | no entry before the one found is ready, and the one found is |
| PoolQueues.GetReturnsFirstReadySurvivor | boto/connection.py:140-199 | get returns the first ready entry among the not stale ones, or None iff none of them is ready, and keeps each of the others once, the skipped ones at the back in order |
| PoolQueues.GetTakes | boto/connection.py:140-158 | get drops a prefix, takes at most one connection out and keeps all others, with no assumption on the clock |
| PoolQueues.GetKeepsSorted | boto/connection.py:140-158 | get keeps the timestamps sorted and not in the future |
| PoolQueues.PutKeepsSorted | boto/connection.py:133-138 | put keeps them so |
| PoolQueues.CleanKeepsSorted | boto/connection.py:183-190 | clean keeps them so, and leaves no stale head at its last look at the clock |
| ConnectionPools.HostConnectionPool.Put | boto/connection.py:133-138 | a connection goes to the back, stamped with the time |
| ConnectionPools.HostConnectionPool.CleanQueue | boto/connection.py:183-190 | the loop computes the cleaned queue and reads the clock once per head it looks at |
| ConnectionPools.HostConnectionPool.GetReady | boto/connection.py:140-158 | the loop computes the queue function of get |
| ConnectionPools.ConnectionPool.constructor | boto/connection.py:231-240 | a new pool is empty and was never cleaned |
| ConnectionPools.ConnectionPool.CleanPools | boto/connection.py:282-300 | a clean that is due cleans every queue, removes exactly the emptied pools and records the time; otherwise nothing changes |
| ConnectionPools.ConnectionPool.CleanEach | boto/connection.py:293-299 | each host's queue is cleaned once, in any order, and the emptied hosts are the ones to remove |
| ConnectionPools.ConnectionPool.GetHttpConnection | boto/connection.py:257-269 | cleans if due, then fetches from the queue of the key alone; None if the key has no pool |
| ConnectionPools.ConnectionPool.PutHttpConnection | boto/connection.py:271-280 | the connection goes to the back of its key's queue, which is made if missing, and no other queue changes |
| ConnectionPools.CleanedPoolsSorted | boto/connection.py:282-300 | after a clean that runs every queue is sorted and no pool is empty |
| ConnectionPools.GetSorted | boto/connection.py:257-269 | fetching keeps all queues sorted |
| ConnectionPools.PutSorted | boto/connection.py:271-280 | putting keeps all queues sorted |
| ConnectionPools.RunsStaySorted | boto/connection.py:257-300 | in every run of cleans, fetches and puts from an empty pool every queue is sorted at all times |
| PoolThreads.OriginInjective | boto/connection.py:257-300 | after a step a connection is in two places only if it was before |
| PoolThreads.StepKeepsOnePlace | boto/connection.py:257-300 | no atomic clean, get, put, open or close puts a connection in two places |
| PoolThreads.StepKeepsConserved | boto/connection.py:257-300 | no step loses or invents a connection |
| PoolThreads.EveryInterleavingKeepsOnePlace | boto/connection.py:257-300 | in every interleaving each connection ever opened is in exactly one queue slot, one thread's hands, or discarded |
| PoolThreads.CleanIsStep | boto/connection.py:282-300 | what the pool's clean does to the queues is an atomic clean step |
| PoolThreads.GetIsStep | boto/connection.py:265-269 | what its fetch does is an atomic get step |
| PoolThreads.PutIsStep | boto/connection.py:276-280 | what its put does is an atomic put step |
| RetryLoop.ServerFailureRetries | boto/connection.py:964-971 | a 500, 502, 503 or 504 is counted, its response and body kept, and the same connection asked again after min(random * 2^i, max_retry_delay) |
| RetryLoop.AnswerReturns | boto/connection.py:972-987 | any other answer below 300, from 400 on, or without a location ends the call at once, and its connection goes under the call's own key unless it is closed |
| RetryLoop.RedirectFollows | boto/connection.py:988-1003 | a 300 to 399 with a location goes on at the host and port named there, with the scheme of the location, uncounted and without a sleep |
| RetryLoop.NamesHostIff | boto/connection.py:994-996 | host and port are the netloc split at its first colon, or the whole netloc and the port there was |
| RetryLoop.ExceptionRetries | boto/connection.py:1004-1023 | a retry or retryable exception reopens the connection under the call's own scheme and is counted, with a sleep |
| RetryLoop.ExceptionEnds | boto/connection.py:1010-1016 | any other exception ends the call at once |
| RetryLoop.FailuresExhaust | boto/connection.py:923-1030 | a server that keeps failing is asked num_retries + 1 times, with a sleep after each, and its last answer is raised |
| RetryLoop.AttemptsSplit | boto/connection.py:923-1023 | every attempt is a redirect, a counted try, or the one that ends the call |
| RetryLoop.UnfinishedIff | boto/connection.py:923-1023 | the loop still runs after a script of outcomes iff none of them ends the call and those that count as tries do not use up the retries |
| RetryLoop.NeverEndsIff | boto/connection.py:923-1023 | against an endless supply of outcomes the call never ends iff no outcome ends it and at most num_retries of them ever count as tries |
| RetryLoop.AttemptsBounded | boto/connection.py:923-1023 | with at most R redirects there are at most R + num_retries + 1 attempts, and that many always finish |
| RetryLoop.RedirectsNeverFinish | boto/connection.py:988-1003 | redirects alone keep the loop going without a sleep, for any number of attempts |
| RetryLoop.SleepPerTry | boto/connection.py:1022-1023 | a sleep is added for every counted try and for nothing else |
| RetryLoop.EverySleep | boto/connection.py:925-1023 | in a whole call the sleeps are the backoffs of the counted tries, in order |
| RetryLoop.BackoffAt | boto/connection.py:925-926 | the k-th backoff is the one for 2^k and the k-th try's own random number |
| RetryLoop.Pow2IsPower | boto/connection.py:925-926 | the backoff doubles: `Pow2` turns sums into products, from 2 on |
| RetryLoop.EverySleepBounded | boto/connection.py:925-1023 | there is one sleep per counted try, the i-th at most min(2^i, max_retry_delay) |
| RetryLoop.TotalSleepBounded | boto/connection.py:923-1023 | all sleeps last at most 2^(num_retries+1) - 1 and at most (num_retries+1) * max_retry_delay |
| RetryLoop.TimesIsProduct | boto/connection.py:925-926 | `Times` is multiplication |
| RetryLoop.ExhaustionRaises | boto/connection.py:1002-1036 | exhausted retries raise BotoServerError, with its status, reason and the last failure body, iff the last attempt to touch the response left one; otherwise the last saved exception is raised |
| RetryLoop.ReportIffNoTries | boto/connection.py:1029-1036 | the "Please report" error is raised iff num_retries is negative |
| RetryLoop.StoredUnderOwnKeyIff | boto/connection.py:982-1003 | a returned connection is stored under the key it was asked for iff the last reconnecting attempt was no redirect to the other scheme |
| RetryLoop.RedirectMisfiles | boto/connection.py:982-1001 | a secure connection that answers 307 to http and then 200 stores the http connection under the https key |
| RetryLoop.AWSAuthConnection.GetHttpConnection | boto/connection.py:703-708 | the pool does what its own get_http_connection does; the connection is the one it returned, taken out of the queue of its key, or a new one if it returned none |
| RetryLoop.AWSAuthConnection.Connect | boto/connection.py:703-708 | nothing enters the pool; if it queued no connection twice, the one obtained is not in it any more; if it was faithful, that one was opened for its key |
| RetryLoop.AWSAuthConnection.Answer | boto/connection.py:964-1003 | the part of a pass after a response: return it and release the connection, retry, or follow the redirect |
| RetryLoop.AWSAuthConnection.OneTry | boto/connection.py:923-1023 | one pass through the loop body computes `Pass` and puts at most the returned connection into the pool; if the pool queued no connection twice and the one in use was not in it, both stay so |
| RetryLoop.AWSAuthConnection.Attempts | boto/connection.py:923-1023 | the while loop computes `Run` from any point on, with the same effect on the pool |
| RetryLoop.AWSAuthConnection.Mexe | boto/connection.py:889-1036 | the call ends as the run says; the pool gains at most one connection, opened or fetched for the key last asked for; a pool that queues no connection twice still queues none twice; a faithful pool stays so iff the connection is stored under that key |
| StorageUris.BucketStorageUri.constructor | boto/storage_uri.py:288-299 | the fields are the given ones and `uri` is their printed form, versioned iff there is a version to print |
| StorageUris.BucketStorageUri.BuildUriStrings | boto/storage_uri.py:301-318 | which of the three strings are set, from which fields, and which keep their old value |
| StorageUris.BucketStorageUri.UpdateFromValues | boto/storage_uri.py:327-332 | the version fields are replaced and the strings rebuilt for the kind fixed at construction |
| StorageUris.UriKeepsItsKind | boto/storage_uri.py:295-332 | over any updates a versionless uri stays the versionless one, and a versioned one shows the last version it was given |
| StorageUris.SplitExists | boto/__init__.py:1150-1157 | every string has a scheme and a path: it is split at its first `://`, or the default scheme goes with all of it |
| StorageUris.SplitDecides | boto/__init__.py:1150-1157 | these decide how it is parsed, the scheme in small letters |
| StorageUris.DefaultSchemeIsPrefix | boto/__init__.py:1151-1153 | without `://` the default scheme, in any case, is as if it stood there |
| StorageUris.UnrecognizedIff | boto/__init__.py:1159-1160 | the scheme is refused iff it is none of file, s3 and gs in any case |
| StorageUris.FileUriIff | boto/__init__.py:1161-1167 | a file URI is its path, and a stream iff that is a dash |
| StorageUris.InvalidBucketIff | boto/__init__.py:1175-1178 | the bucket name is refused iff validation is on and the text before the first slash is not empty and breaks the rule |
| StorageUris.NameRuleIff | boto/__init__.py:56-58 | the rule, without regular expressions: 3 to 255 letters, digits, dots, dashes and underscores, a letter or digit at both ends, no 64 small letters, digits, dashes and underscores in a row; a final newline is let through |
| StorageUris.BucketUriParsed | boto/__init__.py:1168-1200 | every other s3 or gs URI is parsed |
| StorageUris.PathFields | boto/__init__.py:1168-1198 | the bucket is what stands before the first slash, the object what follows it in the versionless part, the version or generation what the expression found |
| StorageUris.VersionFoundIff | boto/__init__.py:61 | a version is found iff the last line of the path is a#v with both parts not empty and no # in v but at its end |
| StorageUris.GenerationFoundIff | boto/__init__.py:59-60 | a generation is found iff the last line of the path is a#v with a not empty and v one or more digits |
| StorageUris.LastLineIs | boto/__init__.py:59-61 | the last line is what follows the last newline, not counting one that ends the path |
| StorageUris.S3Iff | boto/__init__.py:1186-1200 | an s3 URI's path comes back from its printed form iff it is recoverable |
| StorageUris.GsIff | boto/__init__.py:1179-1200 | the same for gs |
| StorageUris.RoundTripIff | boto/__init__.py:1143-1200 | for valid bucket names and one-line objects, under any default scheme and with or without validation, parsing the printed URI gives back every field iff the version is printed and read as it was given |
| StorageUris.GenerationZeroIsLost | boto/storage_uri.py:301-318 | generation 0 is not printed and comes back as none |
| Text.StripSplit | boto/jsonresponse.py:114 | strip takes off white space, code point by code point as written out, and leaves none at either end |
| Text.StripUnique | boto/jsonresponse.py:114 | and it leaves all that stands between |
| Text.StripBlank | boto/jsonresponse.py:114 | spaces, tabs, newlines and carriage returns alone strip to nothing |
| Text.EndsWithIff | boto/jsonresponse.py:96 | s ends with t iff s is something followed by t |
| Text.LowerLetters | boto/auth.py:415 | lower turns each capital letter into its small one and changes nothing else |
| Ordering.SortSorted | boto/auth.py:399 | sorting gives an ordered sequence |
| Ordering.LeqIff | boto/auth.py:399 | the order of strings: a prefix first, or the smaller character at the first difference |
| Ordering.SortedUnique | boto/auth.py:422 | there is only one ordered arrangement of a collection of strings |
| Ordering.SortIgnoresOrder | boto/auth.py:414-427 | so the order in which a dict lists its keys does not matter |
| SigV4.UnquoteOfQuote | boto/auth.py:616-618 | unquoting undoes quoting |
| SigV4.QuoteOne | boto/auth.py:401-618 | letters, digits and -_.~ stand for themselves, a slash does in a path, and any other byte is written as % and its two hex digits, in capitals |
| SigV4.QuoteAppend | boto/auth.py:401-618 | quoting goes byte by byte |
| SigV4.UnquoteEscape | boto/auth.py:616 | % and two hex digits, capital or small, are read as a byte |
| SigV4.UnquotePlain | boto/auth.py:616 | text without % is left alone |
| SigV4.UnquotePercent | boto/auth.py:616 | and so is a % without two hex digits after it |
| SigV4.CanonicalUriIsCanonical | boto/auth.py:611-619 | two paths have the same canonical form iff they decode to the same path, and canonicalising twice changes nothing |
| SigV4.UriEscapes | boto/auth.py:611-619 | in a canonical path every % has two hex digits after it, in capitals |
| SigV4.EscapedOrNot | boto/auth.py:611-619 | it makes no difference whether a byte of the path was already escaped, or in which hex digits |
| SigV4.CanonicalQueryString | boto/auth.py:393-403 | the loop over the sorted names joins the encoded pairs; empty for POST unless the handler is S3's |
| SigV4.QueryDecodes | boto/auth.py:621-630 | splitting and unquoting the canonical query string gives back the parameters |
| SigV4.QueryInOrder | boto/auth.py:393-403 | there is one part for each parameter, and the decoded names ascend strictly |
| SigV4.QueryIsCanonical | boto/auth.py:393-403 | two parameter maps, in any order, have the same canonical query string iff they are equal |
| SigV4.CanonicalHeaders | boto/auth.py:412-422 | the loop joins the sorted lines of the headers |
| SigV4.ValueIsCanonical | boto/auth.py:416-420 | values without quotes have the same canonical form iff they have the same words |
| SigV4.HeaderLine | boto/auth.py:414-421 | whatever white space is around the name and around and between the words of an unquoted value, its line is the name in small letters, a colon, and the words with one space between them |
| SigV4.QuotedValue | boto/auth.py:417-418 | a value with a quote in it only loses the white space around it |
| SigV4.SignedHeadersAre | boto/auth.py:424-427 | the signed headers are the canonical names in ascending order with semicolons between them |
| SigV4.HeadersIgnoreOrder | boto/auth.py:405-427 | canonical and signed headers depend only on the collection of headers |
| SigV4.LinesCompare | boto/auth.py:421-427 | two lines compare as their names do unless one name overtakes the other, when they compare the other way |
| SigV4.HeadersAligned | boto/auth.py:421-427 | line i of the canonical headers is for name i of the signed headers, for all i, iff no name overtakes another |
| SigV4.PrefixNamesMisalign | boto/auth.py:421-427 | the headers x-amz-a and x-amz-a-b come in different orders |
| RequestPath.GetPath | boto/connection.py:620-645 | with suppression the base's and the path's segments are joined and the query follows verbatim; an empty part before `?` raises; without suppression one leading slash is dropped |
| RequestPath.HeadAndTail | boto/connection.py:627-632 | a path is the part before its first `?` followed by its query |
| RequestPath.JoinedPath | boto/connection.py:636-642 | the joined path is the only one that starts with a slash, has no double slash, has these segments, and ends in a slash iff the path did or there are no segments |
| RequestPath.NormalFormUnique | boto/connection.py:638-642 | paths with a leading and no double slash are equal iff their segments and their ends are |
| RequestPath.JoinedTwice | boto/connection.py:620-645 | `get_path` maps its own result to itself iff the base has no segments |
| RequestPath.DropSlash | boto/connection.py:625-626 | the substitution drops exactly one leading slash |
| ComplexParam.Params.Build | boto/cloudsearch2/layer1.py:761-768 | recursing once per inner key writes what a single pass does, over any earlier parameters |
| ComplexParam.Params.BuildItem | boto/cloudsearch2/layer1.py:762-768 | one key writes its own parameters and no others |
| ComplexParam.OneItemWrites | boto/cloudsearch2/layer1.py:761-768 | a text or bool is sent under label.key, a bool as true or false, and a sub-dict under label.key in turn |
| ComplexParam.WritesInOrder | boto/cloudsearch2/layer1.py:761-768 | of two parameters with one name the later is sent |
| ComplexParam.WritePath | boto/cloudsearch2/layer1.py:761-768 | every parameter written is the text at some path of keys, under the name of that path |
| ComplexParam.PathWrites | boto/cloudsearch2/layer1.py:761-768 | every text is written under the name of its path |
| ComplexParam.ClearWrites | boto/cloudsearch2/layer1.py:761-768 | if no two paths share a name, each text is sent unchanged under the name of its path |
| ComplexParam.Written | boto/cloudsearch2/layer1.py:761-768 | if no two paths share a name, no key overwrites another's parameter |
| ComplexParam.FlatteningIffClear | boto/cloudsearch2/layer1.py:761-768 | dicts over a set of keys that mean different things are always sent differently iff no two paths over these keys share a name |
| ComplexParam.ClearFlattening | boto/cloudsearch2/layer1.py:761-768 | over such keys two dicts are sent alike iff they are equal up to order, bools as text and empty sub-dicts |
| ComplexParam.DotFreeIsClear | boto/cloudsearch2/layer1.py:761-768 | dot-free keys are such keys |
| ComplexParam.FlatteningIsExact | boto/cloudsearch2/layer1.py:761-768 | so with dot-free keys two dicts are sent alike iff they mean the same |
| ComplexParam.DottedPartsCollide | boto/cloudsearch2/layer1.py:761-768 | a dotted key together with its two parts is not |
| ComplexParam.OneKeyIsClear | boto/cloudsearch2/layer1.py:761-768 | a single key always is, dotted or not |
| ComplexParam.DottedKeysCollide | boto/cloudsearch2/layer1.py:761-768 | a dot in a key makes different dicts come out the same |
| ComputeHash.File.Read | boto/utils.py:1010-1025 | what a legal read may return: some of the bytes asked for, none only at the end |
| ComputeHash.Feed | boto/utils.py:1010-1025 | for every buffer size, size and run of short reads the hash is fed exactly `Hashed`, and nothing beyond it is read |
| ComputeHash.ComputeHash | boto/utils.py:1007-1033 | the digest is that of exactly those bytes, the length is theirs, and the position is restored |
| ComputeHash.HashedBytes | boto/utils.py:1010-1025 | with a positive buffer size these are the first `size` bytes, or all that are left if there are fewer or no positive size is given |
| ComputeHash.HashedUnbuffered | boto/utils.py:1010-1025 | with a buffer size of 0 nothing is hashed unless the size is negative; with a negative one everything is |

## Left out

- LRUCache capacity: a natural number; with a negative one the first set empties the list and then raises AttributeError. Inherited dict methods (`get`, `update`, `repr`) are not modelled, and iteration is run to its end.
- JsonResponse attributes: a tag that overwrites a `ListElement` attribute other than `element_name` (its markers, its methods) is not modelled; XML attributes are ignored as in the code; `pythonize_name` is an arbitrary function of names; `__getattr__` is not modelled.
- XML reading: `Markup.Lex` covers elements, text and declarations as the printers write them; entities, comments and CDATA are not part of this model. The round trip is for values that need no escaping: without `<`, `&`, `]]>` and control characters, since `to_xml` escapes nothing.
- CloudFront: StreamingDistributionConfig, the `update` method (which does not carry logging over), a cnames list shared with the caller, comment None, and unknown tags that overwrite a field by its Python name. `int()` is modelled for ASCII digits without underscores.
- Connection pool: `_conn_ready` is an oracle, and closing sockets, pickling and the mutex itself are not modelled; the critical sections are the atomic steps.
- `_mexe`: `sender` and `retry_handler` (which may set the counter to anything), request hooks, proxies, signing, exceptions raised while a redirect's connection is opened, and the request's path and query. A location is given as the scheme and netloc `urlparse` finds in it.
- StorageUris: file URIs beyond their parse, the `md5` and `is_latest` fields, and generations given as text.
- StorageUris.RoundTripIff: objects with a newline, and bucket names the parser refuses, are excluded.
- SigV4: hashing and HMAC, the host header, `urlparse` of the path, `HmacAuthV4Handler.canonical_uri`, and letters beyond ASCII in `lower()`. Strings stand for their UTF-8 bytes.
- compute_hash: text-mode files, whose lengths are counted in characters, and the hex and base64 forms of the digest.
- build_complex_param: values other than dicts and bools are shown as text.
- Service layers, `connect_*` factories, credentials, region lookup and CloudSearch paging would only add easy members.
