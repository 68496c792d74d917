# fishy-bot GitHub webhook module, modelled in Dafny

fishy-bot is an IRC bot. Its `github` module runs an HTTP server that receives GitHub webhook
requests, buffers the body under a size limit, checks the HMAC signature, and turns `push` and wiki
(`gollum`) events into one line on the channel. In that line, a burst of commits is summarised by a
group word ("a bunch of commits") and a list of authors ("alice, bob & carol").

This project models that module's sequential logic and proves properties of it:

- `Groups`: the grouping table and `find_group`, a first-match scan over inclusive ranges.
- `Text`: the `split('=')`, `join(', ')` and string `length` the module relies on. A length counts
  UTF-16 code units, as JavaScript does: a character outside the Basic Multilingual Plane counts twice.
- `Payloads`: the payload fields the module reads, as typed records, plus the exceptions the code
  throws: a TypeError when a field it reads is missing, or the crypto library rejecting an algorithm.
- `Formatters`: `push` and `gollum`. Each returns the message it would pass to `client.say`, or the
  error it throws.
- `Sorting`: `github.sort`.
- `PostBody`: `processPost`. It buffers the body per `data` chunk, answers 413 past 1e6 UTF-16 code
  units and 405 to methods other than POST.
- `Handler`: `verify`, the dispatch decision of `handler`, and the routing callback of `init`.

The HMAC is a parameter `hmac: (algorithm, payload) -> Option<digest>`. The body decoder is a
parameter `decode: string -> Post`. Chat delivery and the audit log become fields of the result:
`said`, the message sent, and `logged`, whether the log was appended.

Behaviour of the code a reader may not expect:

- An unverified request is answered 200 and is not logged. The log write sits inside `if(verified)`.
- The size limit counts the UTF-16 code units of the decoded string (`queryData.length`), not bytes
  and not characters: 500,001 emoji are over the limit (`PostBody.AstralBodyTooLarge`).
- A request that is not POST gets 200 from `init`. The 405 branch of `processPost` cannot be reached
  from `init`; `Handler.Serve` shows this.
- A missing signature header does not mean "not verified": `hash.split` throws. A header without `=`
  also throws, in `new Buffer(undefined)`. So does an algorithm the crypto library does not know.
  A JavaScript exception escapes `handler`, so no log is written and no response is sent. The model
  returns `Err`, which gives status None.
- Only the piece between the first and the second `=` of the signature is compared with the digest.

## Model

| member | source | states |
|---|---|---|
| `Groups.FindGroup` | modules/modules/github.js:61-70 | the scan returns the label of the first table rule whose inclusive range holds the value; there is a label exactly when 2 <= value <= 2^53 |
| `Groups.TableLabels` | modules/modules/github.js:52-70 | 2 is "couple", 3-4 "few", 5-7 "bunch of", 8-12 "lot of", 13..2^53 "ton of"; 0, 1, negative values and anything above 2^53 get no label |
| `Groups.TableIsDisjoint` | modules/modules/github.js:52-59 | every rule has min <= max, each rule starts one past the previous rule's max, and the rules are pairwise disjoint |
| `Groups.ContiguousIsDisjoint` | modules/modules/github.js:52-59 | any table of contiguous non-empty ranges is pairwise disjoint |
| `Groups.FirstMatchNone` | modules/modules/github.js:61-70 | the lookup finds nothing if and only if no rule covers the value |
| `Groups.FirstMatchIsFirst` | modules/modules/github.js:61-70 | a returned label belongs to a covering rule, and no earlier rule covers the value |
| `Groups.FirstMatchIsUnique` | modules/modules/github.js:52-70 | in a disjoint table, the label of ANY rule covering the value is the one returned, so first match is unique match |
| `Text.SplitJoin` | modules/modules/github.js:135 | joining the pieces of `split('=')` with `=` gives the header back, and no piece contains `=` |
| `Text.JoinSplit` | modules/modules/github.js:135 | splitting a `=`-join of `=`-free pieces gives the pieces back |
| `Text.JoinPrefix` | modules/modules/github.js:135 | a join opens with its first piece, and with two or more pieces with the first piece, the separator and the second piece |
| `Text.Utf16LengthAppend` | modules/modules/github.js:13-14 | the length of the buffer after appending a chunk is the old length plus the chunk's length |
| `Text.Utf16LengthBounds` | modules/modules/github.js:14 | a string's length is between its number of characters and twice that, and equals its number of characters exactly when every character lies in the Basic Multilingual Plane |
| `Text.Utf16LengthAstral` | modules/modules/github.js:14 | a string of characters outside the Basic Multilingual Plane has length twice its number of characters |
| `Formatters.DistinctSpec` | modules/modules/github.js:199-207 | the author keys contain every commit username, no other name, and no name twice |
| `Formatters.CountAuthors` | modules/modules/github.js:199-207 | the forEach loop gives the keys in creation order; each author's count is the number of that author's commits |
| `Formatters.AuthorPhrase` | modules/modules/github.js:209-218 | no names give "undefined"; otherwise the phrase opens with the first name and closes with the last, after " & " when there are several (the full read-out is `Formatters.AuthorPhraseIsSpoken`) |
| `Formatters.AuthorPhraseIsSpoken` | modules/modules/github.js:209-218 | the phrase is a single name alone, "a & b" for two names, and for more, each name but the last two followed by ", " and then "x & y" |
| `Formatters.Push` | modules/modules/github.js:180-226 | the method (count loop, `pop` and `join`, `find_group`) returns exactly the push message, or the TypeError of a push without commits |
| `Formatters.PushSingle` | modules/modules/github.js:186-196 | one commit gives "[GitHub] A commit was made by USER in the REPO project. ( MESSAGE", a vertical bar, and " COMMIT-URL )", whatever the repository URL |
| `Formatters.PushMessageMulti` | modules/modules/github.js:197-221 | several commits give "[GitHub] A GROUP commits were made by AUTHORS in the REPO project. ( REPO-URL )". AUTHORS reads out an ordering of the distinct committers, each once, with ", " and a final " & " |
| `Formatters.PushGroupWord` | modules/modules/github.js:220 | for 2..2^53 commits the group word is the table's label for the count |
| `Formatters.PushMultiIgnoresCommitDetails` | modules/modules/github.js:197-221 | a multi-commit message depends on the committers' names only, not on commit messages or URLs |
| `Formatters.GollumMessage` | modules/modules/github.js:143-158 | throws exactly when there are no pages; says a message exactly when there is one page; says nothing for several |
| `Formatters.GollumIgnoresRepoUrl` | modules/modules/github.js:145-158 | the wiki message links the page, never the repository URL |
| `Formatters.DistinctFive` | modules/modules/github.js:199-207 | committers a, b, a, c, b (three different people) give the author keys a, b, c in first-commit order |
| `Formatters.ExampleFiveCommits` | modules/modules/github.js:180-226 | a push of five commits by a, b, a, c, b is the "bunch of" multi-commit message crediting "a, b & c" with the repository name and URL |
| `Formatters.ExampleAliceBobCarol` | modules/modules/github.js:180-226 | a push of five commits by alice, bob, alice, carol, bob credits "alice, bob & carol" |
| `Sorting.SortByCount` | modules/modules/github.js:81 | the in-place sort leaves the pairs in ascending count order and is a permutation of them |
| `Sorting.Sort` | modules/modules/github.js:72-84 | the result holds every `[key, value]` entry of the object and nothing else, no key appears twice, there are as many pairs as entries, and it is sorted ascending by value |
| `PostBody.Buffer.constructor` | modules/modules/github.js:8 | the buffer starts empty and the request is not aborted |
| `PostBody.Buffer.OnData` | modules/modules/github.js:12-19 | after every chunk the buffer holds at most 1e6 UTF-16 code units; a chunk that takes it past 1e6 empties it and aborts with 413; otherwise the chunk is appended |
| `PostBody.ProcessPost` | modules/modules/github.js:7-41 | a method other than POST gets 405; a POST body longer than 1e6 UTF-16 code units gets 413; any other POST body is handed on whole |
| `PostBody.AstralBodyTooLarge` | modules/modules/github.js:14-17 | a body of 500,001 characters outside the Basic Multilingual Plane is within 1e6 characters but over the limit, which counts code units |
| `Handler.Verify` | modules/modules/github.js:133-141 | a missing header throws; a header that verifies or fails cleanly contains `=`; a verified header opens with an `=`-free algorithm name, `=` and the HMAC under that algorithm (the iff is `Handler.VerifyDigest`, the throw without digest `Handler.VerifyNoDigest`) |
| `Handler.VerifyDigest` | modules/modules/github.js:133-141 | a signature "ALGORITHM=DIGEST" verifies exactly when DIGEST equals the HMAC: the signer's digest is accepted and any other digest is rejected |
| `Handler.VerifyNoDigest` | modules/modules/github.js:135-138 | a signature header without `=` throws, once the algorithm is known |
| `Handler.RunEvent` | modules/modules/github.js:113-115 | a payload of the wrong shape for its event throws, and only that throws `WrongShape`; a push succeeds exactly when it has commits and then always says something; a wiki event succeeds exactly when it has pages and says something exactly when it has one |
| `Handler.Dispatch` | modules/modules/github.js:108-130 | a formatter runs only for a verified request whose event is "gollum" or "push"; it throws exactly when that formatter throws, and then nothing is logged and no status is written; when it does not throw, the status is 200 and the request is logged exactly when verified |
| `Handler.HandleUnverified` | modules/modules/github.js:108-131 | an unverified request is answered 200, says nothing and is not logged |
| `Handler.Handle` | modules/modules/github.js:103-131 | it throws when `verify` throws, and also when a verified, allow-listed event's formatter throws; when it does not throw, the status is 200, the request is logged exactly when its signature verified, and it says something only when verified with an allow-listed event |
| `Handler.VerifiedEmptyPushThrows` | modules/modules/github.js:113-119 | a verified push without commits throws in the formatter, before the log write and the 200 |
| `Handler.VerifiedWrongShapeThrows` | modules/modules/github.js:113-119 | a verified `push` header carrying a wiki payload throws in the formatter, before the log write and the 200 |
| `Handler.Serve` | modules/modules/github.js:88-99 | other methods get 200 and nothing else happens; a POST body over 1e6 UTF-16 code units gets 413 and a destroyed connection, with nothing said or logged; any other POST is verified and dispatched; nothing is said or logged unless verified; the only statuses are 200 and 413 |

## Left out

- The HTTP server, `listen`, `load`, `unload`, and closing the server and its listeners: network I/O
  and lifecycle.
- The HMAC and `buffer-equal-constant-time`: foreign library code. The HMAC is the `hmac` parameter.
  The comparison is string equality, so timing behaviour cannot be stated. Two strings that differ
  only in unpaired surrogates encode to the same UTF-8 bytes; that case is not modelled.
- `JSON.parse` with its `querystring.parse` fallback: library decoders. They are the `decode`
  parameter. A decoded body is a `Post`: a push payload, a wiki payload or anything else. A payload of
  the wrong shape for its event throws `WrongShape`. Missing fields inside a push or wiki payload are
  not modelled.
- `fs.appendFile`, its error report, `console.log` and `client.say`: I/O. They appear only as the
  `logged` flag and the `said` message.
- `request.connection.destroy()`: the model assumes that a destroyed connection delivers no further
  `data` chunk and no `end` event, so `PostBody.Buffer.OnData` requires a request that is not aborted.
- Concurrent requests, and what the host does with an exception that
  escapes `handler`. These are transport and process concerns; an escaped exception shows as status None.
- Decoding each `Buffer` chunk into a string, where a character split across two chunks is garbled:
  chunks are modelled as strings already.
- The `typeof callback !== 'function'` check: the callback is always `github.handler`.
- The commented-out multi-page wiki aggregation: dead code.
- `find_group` on non-integer counts: a count is always an array length.
- Formatters.CountAuthors: counts live in a map, not a JavaScript object. For a username naming an
  `Object.prototype` member (`constructor`, `toString`, `valueOf`, ...) the source skips the zero
  initialisation and stores `NaN`, not the number of commits; the key is still created at first
  appearance. The keys are in creation order, whereas `Object.keys` lists integer-like usernames
  first, in ascending order. Only the key order reaches the message (see the next line).
- Handler.Verify: the `hmac` parameter sees the decoded `Post`, not `JSON.stringify` of the whole
  decoded body. Two bodies with the same `Post` (any two `OtherPost` bodies, or pushes that agree on
  the fields the formatters read) get the same digest in the model but not in the source.
- Formatters.Push: authors are listed in first-appearance order. JavaScript's `Object.keys` lists
  integer-like usernames first, in ascending order. A username such as `__proto__` is lost through
  the prototype. `Formatters.PushMessageMulti` states only membership, no duplicates and the
  punctuation, which hold under any order.
- Sorting.Sort: the `for in` enumeration order is left unspecified, and values are integers.
  Stability of the sort is not stated.
