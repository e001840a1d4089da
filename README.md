# Command queue service — Dafny model

A small HTTP service (`queue_test.py`) takes command strings, keys each one by
`"cmd_"` plus the MD5 hex digest of its UTF-8 text, and keeps two Redis
databases: a **result store** (the primary database: key to result) and a
**queue store** (key to the command text waiting to run). Its handlers are:

- `POST /check`: answer from the result store if the key is there; otherwise
  write the command into the queue.
- `GET /run`: take one `cmd_*` key from the queue and mark it
  `Processing...`. Then delete it from the queue and record the fixed result
  `"Jesse Wilson"` under it in the result store. The command is not executed.
- `GET /`: list the result-store keys, sorted.
- `DELETE /remove`: delete a command's result and report the count.
- `DELETE /flush`: empty the result store.

The model has four modules:

- `Fingerprint` (`fingerprint.dfy`) computes the key. UTF-8 encoding and
  hexadecimal are exact. MD5 is an opaque function value of type
  `seq<Byte> -> Digest`, where a digest is 16 octets.
- `Listing` (`listing.dfy`) defines the sort order of keys and the sorted
  listing of a key set.
- `Handlers` (`handlers.dfy`) gives each handler as a pure function from the
  two stores to the new stores and the JSON reply. The lemmas about these
  functions state the service's properties.
- `Service` (`service.dfy`) holds the class `QueueService`. Its two
  `map<string, string>` fields are updated by one method per handler, step by
  step as the handler calls the store. Each method is proved to end in the
  state and reply that the matching `Handlers` function gives.

Environment facts the handlers depend on are parameters:

- `page` is the key page that `SCAN 0 MATCH cmd_* COUNT 1` returned.
  `Handlers.ScanPage` states what it may hold: queued keys matching
  `cmd_*`. It may be empty even when such keys exist.
- `storeFails` says whether the store raised during `/remove` or `/flush`.

The model follows the code as written:

- `/check` rewrites the queue entry with a plain `set` and consults only the
  result store. There is no set-if-absent.
- `/run` picks whatever key the scan returns. There are no claims, leases,
  retries or failure states.
- The recorded result is the constant placeholder, not an executor's output.

## Model

| member | source | states |
|---|---|---|
| `Fingerprint.Hex` | queue_test.py:74 | `hexdigest()` writes two characters per octet |
| `Fingerprint.HexChars` | queue_test.py:74 | every character of a hex digest is a lowercase hexadecimal digit |
| `Fingerprint.UnhexHex` | queue_test.py:74 | the hex digest can be read back into the octets, so hex encoding is injective |
| `Fingerprint.DecodeEncodeChar` | queue_test.py:74 | the UTF-8 encoding of a character decodes back to its code point |
| `Fingerprint.EncodeCharPrefixFree` | queue_test.py:74 | no character's UTF-8 encoding is a prefix of another's |
| `Fingerprint.Utf8Injective` | queue_test.py:74 | `encode('utf-8')` maps different texts to different octet strings |
| `Fingerprint.KeyShape` | queue_test.py:100 | the key of any command is 36 characters: `cmd_`, then 32 lowercase hex digits; so it matches the scan's `cmd_*` glob |
| `Fingerprint.KeyCollision` | queue_test.py:74 | two commands get the same key exactly when MD5 collides on their encodings |
| `Fingerprint.KeyInjective` | queue_test.py:74 | if MD5 does not collide on two commands, they share a key only if they are the same text |
| `Listing.LexLeTotal` | queue_test.py:58 | any two keys are comparable in the sort order |
| `Listing.LexLeAntisymmetric` | queue_test.py:58 | two keys that sort no later than each other are equal |
| `Listing.LexLeTransitive` | queue_test.py:58 | the sort order is transitive |
| `Listing.LeastExists` | queue_test.py:58 | every non-empty key set has a first key in the sort order |
| `Listing.LeastUnique` | queue_test.py:58 | that first key is unique |
| `Listing.SortedKeys` | queue_test.py:57-58 | `sorted(keys)` holds exactly the given keys, each once, in strictly increasing order |
| `Handlers.ListExact` | queue_test.py:57-58 | the `/` listing names exactly the result-store keys, sorted, without repeats |
| `Handlers.CheckCached` | queue_test.py:79-81 | `/check` on a command with a stored result returns that result and changes neither store |
| `Handlers.CheckEnqueues` | queue_test.py:82-86 | `/check` on a command without a result queues the command text under its key; the result store and all other queue entries are unchanged |
| `Handlers.CheckIgnoresQueue` | queue_test.py:77-79 | the `/check` reply depends only on the result store |
| `Handlers.CheckWhileQueued` | queue_test.py:85 | `/check` on a command already queued with its text changes nothing |
| `Handlers.CheckIdempotent` | queue_test.py:85 | two `/check` calls with the same command leave both stores as one call does |
| `Handlers.RunDrains` | queue_test.py:147-162 | given a page the scan can return, `/run` moves one queued `cmd_` key out of the queue (its size drops by one) and gives it the result `"Jesse Wilson"`, replying "Finished processing command."; all other entries stay; an empty scan page fails and changes nothing |
| `Handlers.SubmitRunResubmit` | queue_test.py:74-162 | `/check`, then `/run` on that key, then `/check` again: the last call returns `"Jesse Wilson"` from the result store and leaves the queue alone; the queue ends as before without the key |
| `Handlers.RemoveDeletes` | queue_test.py:100-110 | `/remove` deletes only the command's result and reports "Successfully deleted 1 keys" or "0 keys"; if the store raises, it returns the error message and nothing changes |
| `Handlers.FlushClears` | queue_test.py:123-132 | a successful `/flush` empties the result store and keeps the queue, so the listing is empty; if the store raises, it reports failure and nothing changes |
| `Handlers.HandlersKeepSeparated` | queue_test.py:63-164 | no handler makes a key both queued and finished, starting from a state where none is |
| `Service.QueueService.constructor` | queue_test.py:76-84 | a service starts with the given digest function and stores |
| `Service.QueueService.ListKeys` | queue_test.py:46-60 | the handler returns the result-store keys, strictly sorted, as `Handlers.List` |
| `Service.QueueService.Check` | queue_test.py:63-86 | `keys()`, then either `get` or `set` on the queue; ends in the stores and reply of `Handlers.Check` |
| `Service.QueueService.Run` | queue_test.py:135-164 | for a page the scan can return, the pick of its first key, the `Processing...` write, the delete and the result write end in the state of `Handlers.Run`; the intermediate write leaves no trace |
| `Service.QueueService.Remove` | queue_test.py:89-110 | the delete, or the caught exception, ends in the state and reply of `Handlers.Remove` |
| `Service.QueueService.Flush` | queue_test.py:113-132 | the flush, or the caught exception, ends in the state and reply of `Handlers.Flush` |

## Left out

- MD5 itself (RFC 1321) is not modelled. It is an opaque parameter, and the
  lemmas about keys hold for any digest function.
- HTTP plumbing is left out: FastAPI routing, request objects, JSON encoding,
  and the two handlers both named `list_keys`. Replies are the `Reply`
  datatype, one constructor per JSON shape.
- Rate limiting (slowapi) is left out; it belongs to the framework.
- Configuration and connections are left out: environment loading,
  `_create_connection`, credentials, TLS (`main.py`). The result and queue
  databases are assumed to be two distinct stores.
- Logging calls are left out. So are the `get` calls in `/run` whose only use
  is logging.
- RedisConnection.py (`execute_query`) is not part of this model: the
  handlers never call it. Its dictionary literal calls `set`, `get`, `mget`,
  `delete` and `flushdb` on every call, with `get` and `set` swapped.
- Command.py is not part of this model. The command is a plain string.
- SCAN paging is left out (cursor, `count`). So are the Redis client's bytes
  decoding and how it treats the list argument in `delete([hashed_cmd])`.
  The scan's result is the `page` parameter. A store error in `/remove` or
  `/flush` is the `storeFails` parameter, whatever raised it.
- Store exceptions in `/check`, `/` and `/run` are not modelled. The code
  does not catch them, so they become server errors. A failure part-way
  through `/run` is not modelled either: it could leave `Processing...` in
  the queue.
- Python strings holding lone surrogates are not modelled. `encode('utf-8')`
  raises on them, and a Dafny `string` cannot hold them.
- The sort order compares code points, while Python compares the keys'
  UTF-8 octets. That the two orders agree is a known property of UTF-8
  (section 1 of RFC 3629), not proved here; keys are ASCII in practice.
- Concurrency is not modelled. Two requests that interleave, such as two
  `/run` calls picking the same key, are outside this sequential model. Each
  handler is one atomic step.
