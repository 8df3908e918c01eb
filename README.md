# DropBox-Clone core, modelled in Dafny

DropBox-Clone is a small multi-threaded file server written in C. Clients
connect over TCP and sign up or log in. They then send UPLOAD and DOWNLOAD
commands, and the upload client base64-encodes the file first. The files
hold the server's parts, but the wiring between them is not yet written:

- The accept loop in `src/main.c` hands each accepted socket to
  `enqueue_socket`, which only prints a placeholder message. It does not
  fill the client ring buffer of `src/client_threadpool.c`.
- The client workers in `src/client_threadpool.c` pass each socket they take
  from the ring to `handle_client`. That function is declared at
  src/commands.h:16, and neither src/commands.c nor src/client_threadpool.c
  defines it. Nothing in src/client_threadpool.c or src/main.c calls the
  command dispatcher `handle_commands`.
- The dispatcher creates no tasks. Tasks are put on the linked task queue only
  by the queue tests (`src/test_queue.c`, `tests/test_queue.c`).
- The dispatcher keeps its own ten-entry account table. The metadata store
  of `src/metadata.c`, which holds users, file records and quotas, is called
  only from `src/test_queue.c`.

This project models five pieces of that system and proves properties about
them. Each is modelled sequentially, in the form the C code has:

- `metadata.dfy` (module `Metadata`) covers the metadata store
  (`src/metadata.c`). It is a class over the fixed C arrays: `users[100]`,
  plus one `files[50]` row per user, held as an `array2`. A ghost abstract
  view is tied to the arrays by `Valid()`. That invariant requires
  `quota_used` to be the sum of the file sizes and to stay within
  `quota_max`.
- `commands.dfy` (module `Commands`) covers the command dispatcher
  (`handle_commands` in `src/commands.c`):
  - the `sscanf("%9s %49s %49s")` scan, modelled with C's semantics:
    white space is skipped, and a word longer than its width runs on into
    the next conversion;
  - the five commands, acting on the session and on the global ten-entry
    account table;
  - each reply, as `write` sends it: the first N characters of a literal
    or of an `snprintf` buffer.

  Spec functions (`Step`, `Dispatch` and one function per branch) state the
  behaviour. The `Server` class's methods are proved against them.
- `task_queue.dfy` (module `TaskQueue`) covers the task queue
  (`src/queue.c`). It is a singly linked chain of `Node` objects with
  `head`, `tail` and `size`, plus a ghost list of the nodes and of the
  queued tasks.
- `client_queue.dfy` (module `ClientQueue`) covers the client connection
  ring (`enqueue` / `dequeue` / `client_worker` in
  `src/client_threadpool.c`). It is an `array<int>` with `front`, `rear`
  and `count`.
- `base64.dfy` (module `Base64`) covers the base64 encoding loop of
  `encode_base64_file` (`src/client_file_testing.c`).
  - `Encode` is a group-by-group specification.
  - `EncodeBuffer` is the C loop.
  - A reference decoder, which is not part of the source, states that the
    encoding loses nothing.
- `cstrings.dfy` (module `CStrings`) holds the C string operations these
  need: bounded copy (`strncpy`), bounded concatenation (`strncat`), the
  truncation of `snprintf`, and the `%zu` decimal conversion.
  `wrappers.dfy` holds `Option`.

Some behaviour is kept as the code has it, not as its comments or test
scripts suggest:

- Several error replies are sent with a `write` length shorter than their
  text, so the client receives a cut-off message. For example,
  `"*** Error: User already exists\n"` is sent with length 27. The model
  keeps these exact prefixes.
- `LIST` and `DELETE` have no branch in `handle_commands`, so they are
  answered `*** Unknown command`. The test client (tests/client.c:37-47)
  says LIST "should work", but the dispatcher code answers it as unknown,
  and the model follows the code (`Commands.ListUnknown`).
- Signing up while logged in switches the session to the new user, as the
  code does.

## Model

| member | source | states |
|---|---|---|
| `CStrings.Take` | src/metadata.c:26 | a bounded copy keeps the first n characters, or all of a shorter string |
| `CStrings.StrNCat` | src/metadata.c:100-104 | defines `strncat(dest, src, n)`: dest followed by at most n characters of src |
| `CStrings.Decimal` | src/metadata.c:103 | defines the `%zu` digits of a size: most significant first, with no leading zero except for 0 itself |
| `CStrings.StrNCatBounded` | src/metadata.c:104 | appending with `strncat(out, src, cap - strlen(out))` to a buffer holding the first cap characters of a gives the first cap characters of a + src; it never overflows and truncates only at the end |
| `CStrings.BoundedAppend` | src/metadata.c:103-104 | a line that fits the `snprintf` buffer, appended with the bounded `strncat`, extends the first cap characters of the listing so far to the first cap characters of the listing plus that line |
| `CStrings.DecimalRoundTrip` | src/metadata.c:103 | the `%zu` digits of n read back as n; they are all digits; a leading zero occurs only for 0 |
| `CStrings.DecimalOf64Bits` | src/metadata.c:103 | a 64-bit `size_t` prints in at most 20 digits |
| `Metadata.TotalSize` | src/metadata.c:65 | defines the sum of a user's record sizes, which `quota_used` must equal under `Valid()` |
| `Metadata.FileLine` | src/metadata.c:103 | defines the `"%s %zu\n"` line of one record before any cut: the name, a space, the decimal size and a newline |
| `Metadata.Lines` | src/metadata.c:102-105 | defines the lines of the records, one per record in array order, as the loop appends them |
| `Metadata.Store.constructor` | src/metadata.c:9-15 | a new store is valid and has no users |
| `Metadata.Store.AddUser` | src/metadata.c:23-33 | returns -1 with the store unchanged when 100 users exist or the name has 64 or more characters; otherwise returns 0 and appends a user with that name, no files, nothing used and the 1 MB default quota |
| `Metadata.UserIndex` | src/metadata.c:36-44 | the index found is the first user with that name; no index means no user has that name |
| `Metadata.UserIndexFirst` | src/metadata.c:37-41 | the first user whose name matches is the one the lookup returns |
| `Metadata.Store.GetUser` | src/metadata.c:36-44 | the loop over the live slots returns the first matching user, or none |
| `Metadata.QuotaCheckAsWritten` | src/metadata.c:47-51 | the check as written, with `quota_used + add_size` wrapping modulo 2^64; 0 for an unknown user |
| `Metadata.QuotaCheck` | src/metadata.c:47-51 | the check with the sum compared unwrapped; 0 for an unknown user, and 1 or 0 otherwise |
| `Metadata.QuotaCheckMeansRoom` | src/metadata.c:47-51 | on a valid store the check says 1 exactly when the user exists and the stored sizes plus the new size fit the quota |
| `Metadata.QuotaCheckAgreesWithoutWrap` | src/metadata.c:50 | the as-written and the corrected check agree whenever the sum fits in 64 bits |
| `Metadata.QuotaWrapAcceptsOversize` | src/metadata.c:50 | a user with 1 byte stored who asks for 2^64 - 1 more bytes passes the as-written check and fails the corrected one |
| `Metadata.QuotaCheckRejectsOverDefault` | src/metadata.c:47-51 | with the default 1 MB quota, a file larger than the quota (2,000,000 bytes, say) is always refused |
| `Metadata.Store.CheckQuota` | src/metadata.c:47-51 | the method computes the corrected check for the current store |
| `Metadata.TotalSizeConcat` | src/metadata.c:65 | the total size of concatenated record lists is the sum of their totals |
| `Metadata.WithFileOk` | src/metadata.c:60-65 | adding a record within the file limit and the quota keeps the user invariant and keeps the earlier records in place |
| `Metadata.Store.AddFile` | src/metadata.c:54-67 | returns -1 with the store unchanged for an unknown user, a user with 50 files, or a failed quota check; otherwise returns 0 and appends the record (name cut to 255 characters) to that user, adding its size to `quota_used` |
| `Metadata.Store.AppendRecord` | src/metadata.c:60-65 | writes the record into the next free slot of the user's row and updates the counters; every other user and row is unchanged |
| `Metadata.FileIndex` | src/metadata.c:75-76 | the index found is the first record with that name; no index means no record has it |
| `Metadata.FileIndexFirst` | src/metadata.c:75-76 | the first record whose name matches is the one the search returns |
| `Metadata.Store.FindFile` | src/metadata.c:75-76 | the search loop over the user's row returns the first matching record, or none |
| `Metadata.RemoveAt` | src/metadata.c:79-81 | removing entry k keeps all entries before k and moves every later one down by one |
| `Metadata.TotalSizeRemoveAt` | src/metadata.c:77 | removing a record lowers the total size by exactly that record's size |
| `Metadata.TotalSizeCovers` | src/metadata.c:77 | a record's size never exceeds the user's total, so `quota_used -= size` cannot go below zero |
| `Metadata.WithoutFileOk` | src/metadata.c:77-82 | on a valid user, subtracting a record's size never goes below zero, and removing the record keeps the user invariant |
| `Metadata.Store.ShiftDown` | src/metadata.c:79-81 | the shift loop leaves the row as the record list without entry k; every other cell of the array is unchanged |
| `Metadata.Store.DeleteRecord` | src/metadata.c:77-82 | the user's record k is removed and its size is subtracted from `quota_used`; other users are unchanged |
| `Metadata.Store.RemoveFile` | src/metadata.c:71-87 | returns -1 with the store unchanged when the user or the file is missing; otherwise returns 0 and removes the first record with that name |
| `Metadata.Listing` | src/metadata.c:90-101 | an unknown user gets `ERROR: User not found` |
| `Metadata.FileLineFits` | src/metadata.c:98-103 | a record's `"%s %zu\n"` line fits the 512-byte buffer, so `snprintf` never cuts it |
| `Metadata.FileLineShowsRecord` | src/metadata.c:103 | a record's line is its file name, a space, the decimal digits of its size, which read back as the size, and a newline |
| `Metadata.LinesInOrder` | src/metadata.c:102-105 | the listing shows each record's line in array order |
| `Metadata.ListingStep` | src/metadata.c:103-104 | one `snprintf` + `strncat` step extends the truncated listing of the records so far by the next record's line |
| `Metadata.AppendLine` | src/metadata.c:103-104 | one loop step: the output grows from the truncated listing of the records so far to the truncated listing that includes the next record |
| `Metadata.Store.AppendLines` | src/metadata.c:102-105 | the loop leaves the first cap characters of the lines of the user's records in the output |
| `Metadata.Store.ListFiles` | src/metadata.c:90-106 | the output is the first `out_size - 1` characters of `ERROR: User not found`, of `No files`, or of one `name size` line per record in order |
| `Commands.IsSpace` | src/commands.c:22 | defines the white space `%s` skips and stops at: `isspace` in the C locale (space, tab, newline, vertical tab, form feed, carriage return) |
| `Commands.Step` | src/commands.c:18-138 | defines one call of `handle_commands`: the line's three conversions and its file argument, passed to `Dispatch` |
| `Commands.Dispatch` | src/commands.c:25-137 | defines the branch chain on the command word: signup, login, logout, UPLOAD, DOWNLOAD, otherwise unknown |
| `Commands.SignupOutcome` | src/commands.c:26-57 | defines the signup branch: the usage reply, the duplicate reply, the append with login, or the full-table reply, each cut to the length written |
| `Commands.LoginOutcome` | src/commands.c:59-85 | defines the login branch: the usage reply, the already-logged-in message, the credential match with login, or the failure reply |
| `Commands.LogoutOutcome` | src/commands.c:87-97 | defines the logout branch: the not-logged-in reply, or the cleared session and its reply |
| `Commands.FileReply` | src/commands.c:101-131 | defines the UPLOAD and DOWNLOAD reply: the login error, the echo of the file name, or the usage line |
| `Commands.AlreadyLoggedIn` | src/commands.c:66-71 | defines the `snprintf` into the 128-byte `msg`: the message naming the user, cut to 127 characters |
| `Commands.Received` | src/commands.c:109-111 | defines the `snprintf` into the 300-byte `msg`: the prefix, the file name and a newline, cut to 299 characters |
| `Commands.ScanString` | src/commands.c:22 | a `%Ns` conversion fails exactly on blank input; otherwise it skips white space and reads 1 to N non-space characters, stopping early only at white space or at the end |
| `Commands.ScanStringOf` | src/commands.c:22 | conversely, white space, a word within the width and a following space or end scan to exactly that word and rest |
| `Commands.ScanLine` | src/commands.c:22 | the scan converts one to three fields, each a word within its width |
| `Commands.ScanLineOfThree` | src/commands.c:22 | three successful conversions, each reading on from where the last stopped, give a three-field scan |
| `Commands.ScanLineOfTwo` | src/commands.c:22 | two successful conversions with only white space left give a two-field scan |
| `Commands.ScanSeparatedWords` | src/commands.c:22 | three words separated by any white space scan to those words; a nine-character command needs no space after it |
| `Commands.ScanThreeWords` | src/commands.c:22 | `c u p` followed by a newline scans to the command c and the arguments u and p |
| `Commands.ScanOneWord` | src/commands.c:22 | a single short word scans as a command with one conversion |
| `Commands.ScanSeparatedTwo` | src/commands.c:22 | a command and one argument, separated by and followed by white space, give a two-field scan of those words |
| `Commands.ScanTwoWords` | src/commands.c:22 | `c u` followed by a newline scans to the command c and the one argument u |
| `Commands.LongCommandRunsOn` | src/commands.c:21-22 | a command typed longer than nine characters is cut at nine, and the rest becomes the user name |
| `Commands.FileArg` | src/commands.c:108 | the file argument, when present, is a word of at most 255 characters |
| `Commands.FileArgOf` | src/commands.c:108 | `UPLOAD f` or `DOWNLOAD f` gives back the file name f |
| `Commands.SignupSucceeds` | src/commands.c:40-53 | a well-formed signup with a free name and room in the table appends the account, logs the new user in and replies `Signup successful. You are now logged in.` |
| `Commands.SignupStep` | src/commands.c:40-53 | a signup of two scanned words with a free name and room in the table gives exactly the grown table, the new session and the success reply |
| `Commands.SignupRejected` | src/commands.c:26-57 | a malformed signup, a taken name or a full table changes nothing, and the replies are the 56, 27 and 26 characters the code writes |
| `Commands.StepKeepsInvariants` | src/commands.c:26-97 | every command keeps the table at most ten entries with distinct, well-formed names; it only ever appends, by at most one; a logged-in session always names a well-formed user |
| `Commands.LoginWhileLoggedIn` | src/commands.c:66-71 | a login while logged in changes nothing, and the reply names the current user in full |
| `Commands.LoginIffCredentials` | src/commands.c:73-84 | a logged-out, well-formed login succeeds exactly when some entry matches both name and password; on failure the session is unchanged and the reply is cut, as written, to 27 characters |
| `Commands.ReLogin` | src/commands.c:73-81 | an account just signed up logs back in with the same name and password |
| `Commands.LoginMalformed` | src/commands.c:60-63 | a login of other than three words changes nothing and prints the usage line |
| `Commands.LogoutEffect` | src/commands.c:87-97 | logout clears a logged-in session with `Logged out successfully`; otherwise it only sends the first 21 characters of the error |
| `Commands.UploadEffect` | src/commands.c:101-115 | UPLOAD never changes state. Logged out, it sends 26 characters of the login error. Logged in, it echoes the file name in full, or sends the usage line when there is no file name |
| `Commands.DownloadEffect` | src/commands.c:117-131 | DOWNLOAD behaves the same way, with its own wording |
| `Commands.UnknownCommandEffect` | src/commands.c:135-137 | any other command changes nothing and is answered `*** Unknown command` |
| `Commands.OneWordUnknown` | src/commands.c:135-137 | a one-word line that is none of the five commands is answered as unknown, whatever the state |
| `Commands.ListUnknown` | src/commands.c:135-137 | the client's `LIST` line is answered as unknown |
| `Commands.ClientScript` | tests/client.c:36-48 | the eleven lines the test client sends, run through the dispatcher from an empty table and a logged-out session: signup logs user1 in; LIST is unknown; login as user2 is refused while logged in; logout succeeds; LIST is unknown; user1 logs back in; signing up user1 again is refused; a second logout; user2 signs up and is logged in; LIST and `INVALID cmd` are unknown |
| `Commands.ScriptFirstUser` | tests/client.c:37-43 | the first seven lines of the script give those outcomes, each line starting from the state the previous one left |
| `Commands.ScriptSecondUser` | tests/client.c:44-47 | the last four lines of the script give those outcomes; the second user's signup grows the table to two entries |
| `Commands.ScriptSignup` | src/commands.c:40-53 | the line `signup u p\n` with a free name and room in the table appends the account and logs it in |
| `Commands.ScriptSignupTaken` | src/commands.c:33-38 | the line `signup u p\n` for a name already in the table changes nothing and sends 27 characters of the error |
| `Commands.ScriptLoginWhileLoggedIn` | src/commands.c:66-71 | the line `login u p\n` while logged in changes nothing and names the current user |
| `Commands.ScriptLogin` | src/commands.c:73-81 | the line `login u p\n` for the only account logs it in |
| `Commands.ScriptLogout` | src/commands.c:87-97 | the line `logout\n` while logged in clears the session |
| `Commands.ScriptList` | src/commands.c:135-137 | the line `LIST\n` is answered as unknown in every state |
| `Commands.ScriptInvalid` | src/commands.c:135-137 | the two-word line `INVALID cmd\n` is answered as unknown in every state |
| `Commands.ClientSession.constructor` | src/commands.h:7-10 | a new session is logged out with an empty user name |
| `Commands.Server.constructor` | src/commands.c:15-16 | the account table starts empty |
| `Commands.Server.HandleCommands` | src/commands.c:18-138 | the reply, the new table and the new session are exactly what `Step` gives for the old table and session and the line; the table stays at most ten distinct, well-formed entries (`Valid`), and a logged-in session keeps naming a well-formed user |
| `Commands.Server.Signup` | src/commands.c:26-57 | the duplicate-name loop and the append give the signup branch's outcome, and the grown table keeps its names distinct and well formed |
| `Commands.Server.Login` | src/commands.c:59-85 | the credential loop gives the login branch's outcome; the table is untouched |
| `Commands.Server.Logout` | src/commands.c:87-97 | the session update and the reply are the logout branch's outcome |
| `Commands.Server.FileCommand` | src/commands.c:101-131 | the reply is the UPLOAD / DOWNLOAD branch's reply for the session and the line's file argument |
| `TaskQueue.Queue.constructor` | src/queue.c:4-11 | a new queue is valid and empty, with null head and tail and size 0 |
| `TaskQueue.Queue.Enqueue` | src/queue.c:25-42 | the task is appended at the tail, and the method returns 0; the chain stays valid |
| `TaskQueue.Queue.Dequeue` | src/queue.c:44-64 | with tasks queued, it returns 0 and the head task and removes it, whatever the stop flag; with none queued and the stop flag set, it returns -1 and no task, leaving the queue empty |
| `TaskQueue.Queue.Destroy` | src/queue.c:13-23 | the walk from head to null visits exactly as many links as there are queued tasks |
| `TaskQueue.Filled` | tests/test_queue.c:15-37 | enqueuing tasks one after the other into a new queue gives a queue holding them in that order |
| `TaskQueue.EnqueueThenDequeue` | tests/test_queue.c:41-55 | as many dequeues as enqueues return the tasks in enqueue order |
| `TaskQueue.DrainOnShutdown` | src/queue.c:46-63 | dequeuing with the stop flag set returns every queued task in order, then reports -1 |
| `ClientQueue.Ring.constructor` | src/client_threadpool.c:69 | a new ring of the given capacity has `front = rear = count = 0` and nothing queued |
| `ClientQueue.Ring.Enqueue` | src/client_threadpool.c:8-20 | a full ring drops the socket and changes neither the counters nor the buffer; otherwise the socket is written at `rear`, `rear` becomes `(rear + 1) % capacity` and `count` grows by one |
| `ClientQueue.Ring.Dequeue` | src/client_threadpool.c:22-32 | returns the oldest socket; `front` becomes `(front + 1) % capacity` and `count` falls by one |
| `ClientQueue.SlotIsModular` | src/client_threadpool.c:15 | counting k slots round the ring from `front` is `(front + k) % capacity` |
| `ClientQueue.NextSlot` | src/client_threadpool.c:15 | `(x + 1) % capacity` is the next slot, wrapping to 0 after the last |
| `ClientQueue.RearIsModular` | src/client_threadpool.c:15 | in a valid ring `rear == (front + count) % capacity` |
| `ClientQueue.Served` | src/client_threadpool.c:40 | the sockets the worker hands on are all positive and no more than were dequeued |
| `ClientQueue.ServedMembers` | src/client_threadpool.c:40 | a socket is handed on exactly when it was queued and is positive |
| `ClientQueue.Ring.Work` | src/client_threadpool.c:38-44 | the worker, run while sockets are queued, empties the ring and hands on exactly the positive sockets in arrival order |
| `ClientQueue.Offer` | src/client_threadpool.c:8-16 | connections offered one after the other to an empty ring are kept in order until it is full; every later one is dropped |
| `ClientQueue.AcceptThenServe` | src/client_threadpool.c:8-44 | of a burst of connections to a new pool, the first `capacity` are queued and the rest dropped, and the worker handles the positive ones among those kept, in arrival order |
| `Base64.Quad` | src/client_file_testing.c:44-49 | defines the four characters of one group by the RFC 4648 sextets, with `=` for each character only missing bytes determine |
| `Base64.Group` | src/client_file_testing.c:43-49 | defines what one pass of the loop writes for the group starting at byte i, with missing bytes read as 0 |
| `Base64.Encode` | src/client_file_testing.c:39-50 | defines the whole output, group after group, that the loop writes into `encoded` |
| `Base64.Put` | src/client_file_testing.c:46-49 | the four `*p++` writes: the output array up to p + 4 is the old prefix followed by the four characters |
| `Base64.TableChar_IsTable` | src/client_file_testing.c:21-22 | the specification's character k is character k of `b64_table` |
| `Base64.PadNotInTable` | src/client_file_testing.c:21-22 | '=' is not in the alphabet |
| `Base64.SextetsOfPacked` | src/client_file_testing.c:44-47 | the shifts and masks of `val` give the four 6-bit indices of section 4 of RFC 4648 |
| `Base64.EncodeGroup` | src/client_file_testing.c:44-49 | one loop iteration writes the four characters of the group, with '=' for missing bytes |
| `Base64.EncodeBuffer` | src/client_file_testing.c:39-51 | the loop writes exactly `Encode(buffer)` |
| `Base64.EncodeLength` | src/client_file_testing.c:39 | the output has `4 * ((n + 2) / 3)` characters and is empty exactly for empty input |
| `Base64.GroupAt` | src/client_file_testing.c:43-49 | characters 4k to 4k+3 of the output encode bytes 3k to 3k+2 |
| `Base64.FullGroup` | src/client_file_testing.c:44-49 | a full group `b0 b1 b2` becomes the alphabet characters at `b0>>2`, `((b0&3)<<4)\|(b1>>4)`, `((b1&15)<<2)\|(b2>>6)` and `b2&63` |
| `Base64.GroupChars` | src/client_file_testing.c:46-49 | the first two characters of a group are never '='; the third and fourth are '=' exactly when their byte is missing |
| `Base64.PaddingExact` | src/client_file_testing.c:48-49 | the '=' characters are exactly the last `(3 - n % 3) % 3` of the output |
| `Base64.Padding` | src/client_file_testing.c:48-49 | when `n % 3` is 1, the output ends in `==`; when it is 2, it ends in a single `=`; when it is 0, there is no '=' |
| `Base64.EncodeAlphabet` | src/client_file_testing.c:46-49 | every output character is '=' or in `b64_table` |
| `Base64.EncodeSplit` | src/client_file_testing.c:43-50 | encoding a prefix whose length is a multiple of 3, followed by the rest, is the encoding of each part, concatenated |
| `Base64.CharIndexOfAlphabet` | src/client_file_testing.c:21-22 | looking up character k of the alphabet gives back k |
| `Base64.DecodeQuadOfQuad` | src/client_file_testing.c:44-49 | each group's four characters decode back to its one to three bytes |
| `Base64.DecodeEncode` | src/client_file_testing.c:39-51 | decoding the output gives back the input bytes, so the encoding loses nothing |

## Left out

- Threads, mutexes, condition variables, and the pool's `stop` and shutdown signalling are not modelled; every queue is modelled sequentially.
- Every operation that would block becomes a precondition. For the task queue, a dequeue requires a queued task or the stop flag. For the ring, a dequeue requires `count > 0`.
- `TaskQueue.Queue.Dequeue`: the stop flag is a plain boolean parameter. The header declares it `_Atomic int *` and the definition `volatile int *`, and tests/test_queue.c calls `queue_dequeue` with two arguments.
- `TaskQueue.Queue.Destroy`: models the walk of `queue_destroy` only. Freeing the nodes and destroying the lock have no counterpart in Dafny. Likewise `TaskQueue.Queue.Dequeue` does not model the `free(n)` at src/queue.c:61; in the model the dequeued node simply becomes unreachable.
- `queue_enqueue` returning -1 when `malloc` fails is not modelled (src/queue.c:27), because allocation in Dafny cannot fail. The same holds for `metadata_init` returning NULL (src/metadata.c:12).
- A task is a value of a generic type. The task's fields, and the sharing of the `task_t` pointer with its producer, are not modelled.
- `size`, `count`, `num_users` and `num_files` are mathematical integers. Their C `int` width never matters, because each is bounded (at most 100, 50 or the ring capacity), except the task queue's `size`, which would overflow only after 2^31 enqueues.
- `MAX_CLIENT_QUEUE` is used at src/client_threadpool.c:10, 15 and 28 but defined neither there nor in src/client_threadpool.h, so the ring's capacity is a positive constructor parameter.
- `ClientQueue.Ring.Enqueue`: `close(client_sock)` and the log line for a dropped connection are represented only by the returned `dropped` flag.
- `ClientQueue.Ring.Work`: runs until the ring is empty rather than until `pool->stop` is set, since a real worker would block on an empty ring. The sequence of sockets it returns stands for the calls to `handle_client`.
- `init_client_threadpool` is modelled only as the ring's zero-initialisation (src/client_threadpool.c:69). Thread creation and `cleanup_client_threadpool` are not modelled.
- Sockets, `write`, `recv`, `printf` and `perror` are not modelled. The dispatcher returns its reply as a string instead of writing it to `sockfd`.
- `Commands.Server.HandleCommands` requires a line with at least one non-space character. On a blank line `sscanf` returns EOF (-1) and leaves `command` unset, so the branches compare a `command` that was never written. That touches memory that was never initialised, so there is no defined behaviour to model.
- `Commands.Scanned`: a field `sscanf` does not convert is modelled as "". C leaves it uninitialised, but no branch reads it then.
- `Commands.ClientSession.constructor`: models the session as zeroed. The connection handler `handle_client` that creates it is not part of this model.
- `Commands.FileArg`: its contract says only that a file argument found is a word of at most 255 characters. What it reads from a line of a command, a space and a name is stated by `Commands.FileArgOf`.
- Strings are NUL-free sequences of characters, and one Dafny `char` stands for one C byte. Every length limit the model keeps counts bytes, as C does: `strlen(username) >= 64` at src/metadata.c:23-33, the `%9s` and `%49s` widths at src/commands.c:22, the 255-byte file name cut, and the 128- and 300-byte `snprintf` buffers. Multi-byte encodings are not modelled. `isspace` is modelled for the C locale only.
- `commands.h` declares `handle_commands` with five parameters (src/commands.h:12), but the definition in src/commands.c takes three; the definition is modelled.
- `metadata.h` declares `metadata_add_user` with a password (src/metadata.h:44), but the definition takes none; the definition is modelled.
- `metadata_authenticate`, `metadata_get_and_lock_file` and `metadata_unlock_file` are declared at src/metadata.h:46-52 and not defined in src/metadata.c, so they are not modelled.
- `Metadata.Store.AddFile` and `Metadata.Store.CheckQuota` use the corrected quota check `Metadata.QuotaCheck`. When `quota_used + size >= 2^64`, the model refuses the file and returns -1. The C code wraps the sum at src/metadata.c:50, accepts the file at line 58, and wraps `quota_used` at line 65 (see "## Findings").
- `metadata_destroy` only frees memory and is not modelled.
- `Metadata.Store.ListFiles` requires `out_size >= 1`. With `out_size == 0`, every path writes outside the buffer. For an unknown user, `strncpy` at src/metadata.c:93 runs with n = SIZE_MAX, and line 94 writes `output[SIZE_MAX]`. For a known user, line 97 writes `output[0]`, and lines 100 and 104 call `strncat` with n = SIZE_MAX.
- `encode_base64_file`: reading the file (`fopen`, `fseek`, `ftell`, `fread`, lines 25-37) and the failure of `ftell` are not modelled. The loop is modelled over the bytes read (`Base64.EncodeBuffer`).
- `Base64.Decode` is a reference inverse: the source has no decoder. It is used only to state the round trip.
- src/file_io.c, src/worker.c, src/main.c, the client programs and the Python test scripts are not part of this model.

## Findings

| source | as written | input that shows it | evidently intended | confidence | as-written member | corrected member |
|---|---|---|---|---|---|---|
| src/metadata.c:50 | `u->quota_used + add_size <= u->quota_max` is computed in `size_t`, so the sum wraps modulo 2^64 | a user with `quota_used = 1` and the 1 MB quota asks for `add_size = 2^64 - 1`; the wrapped sum is 0, so the check returns 1 | a file is accepted only if the used bytes plus its size fit the quota | not executed | `Metadata.QuotaCheckAsWritten` (counterexample `Metadata.QuotaWrapAcceptsOversize`) | `Metadata.QuotaCheck` (`Metadata.QuotaCheckMeansRoom`, `Metadata.QuotaCheckAgreesWithoutWrap`), used by `Metadata.Store.CheckQuota` and `Metadata.Store.AddFile` |
