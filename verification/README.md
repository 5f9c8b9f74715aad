# tempmail server model

A Dafny model of the logic in `server.js` of the tempmail server. The server hands out disposable addresses at 1secmail-style domains and polls the provider for their mail. It pulls one-time codes out of incoming messages and keeps a table of WebSocket clients. The model covers five parts:

- **`extractOTP`** (`otp.dfy`, `otp_properties.dfy`). The six regular expressions are hand-written scanners over `seq<char>` that follow JavaScript's matching order:
  - greedy `\d{4,6}` tries 6, 5, then 4 digits;
  - greedy `[:\s]*` and `\s*` give characters back one at a time;
  - `\b` is a change between `[A-Za-z0-9_]` and anything else;
  - `/i` folds ASCII letters only;
  - `\s` is the ECMAScript white-space and line-terminator set.

  `String.prototype.match` is the leftmost match. `match[0].match(/\d+/)` is the first maximal digit run of the matched text.
- **Mailbox normalisation** (`mailbox.dfy`). This is the body of `checkEmailAccount`. The provider's list response and each item's detail response are inputs.
- **Poll registry** (`registry.dfy`). `activeCheckers` with `startEmailChecking` and `stopEmailChecking`. The intervals the runtime keeps running are tracked next to the map, so that "one running timer per tracked address" can be stated.
- **Connection table** (`hub.dfy`). `connections` with the `connection`, `message`, `close` and `error` handlers and the hourly clean-up.
- **Address generation and request guards** (`addresses.dfy`, `routes.dfy`). `generateUsername`, the domain pick, and the `create-email` loop. Also the guards and result shaping of `get-messages`, `check-emails`, `verify-email`, `delete-email` and `stats`.

Inputs stand in for the outside world:

- the provider's answers: `ListResponse` and `DetailFetch`;
- `Math.random()`: a sequence of real draws in [0, 1);
- `Date.now()` and parsed dates: plain integers;
- client ids: given strings.

`Option` and JavaScript truthiness are in `wrappers.dfy`.

Behaviours of the code worth knowing before reading the model:

- **OTP pattern priority.** The bare pattern `\b\d{4,6}\b` is tried before the labelled ones, so `"654321 code: 123456"` yields `654321` (`OtpProperties.BareRunBeforeLabel`). The result is always the capture group of the first pattern in list order that matches anywhere (`OtpProperties.TryPatternsIsFirstHit`).
- **Local part of generated addresses.** The prefix is not checked at all. The username is the prefix followed by `max(8 - prefix.length, 4)` random characters from `[a-z0-9]`, where `length` counts UTF-16 code units, so its UTF-16 length is `max(8, prefix.length + 4)`.
- **Idle clients.** `lastActivity` is never updated after connect, so a client is closed at the first hourly clean-up more than an hour after it connected, however many frames it sent (see Findings).
- **A `null` entry in the provider's list** makes the per-item error handler throw again, so the whole poll yields no messages (see Findings).
- **Poll timers.** No route calls `startEmailChecking`; only `delete-email` calls `stopEmailChecking`. In the running server `activeCheckers` therefore stays empty and `stats` always reports 0 active accounts. The registry is modelled for the functions themselves.

## Model

| member | source | states |
|---|---|---|
| Otp.RunLength | server.js:37-42 | the length of the maximal run of digits, white space, or colon/white space starting at a position: every character inside is in the class, and the next one is not or the text ends |
| Otp.BoundedDigits | server.js:37 | `\d{4,6}\b` at a position, trying the longer counts first: a hit spans 4 to 6 digits followed by a word boundary |
| Otp.GreedyDigits | server.js:38-42 | greedy `\d{4,6}`: a hit is all digits, and it stops short of 6 only where the digits end |
| Otp.SepsThenDigits | server.js:38-40 | `[:\s]*(\d{4,6})` with the separator star backtracking: a hit is a well-formed match whose group is its tail |
| Otp.SpacesThenPhrase | server.js:41 | `[\s]*is your code` with the star backtracking: a hit ends after its start, and a digit cannot begin it |
| Otp.DigitsThenPhrase | server.js:41 | `(\d{4,6})[\s]*is your code` at a position: a hit is a well-formed match whose group starts the match |
| Otp.KeywordAt | server.js:38-42 | a case-insensitive keyword followed by separators and a 4 to 6 digit group: any hit is well-formed and starts at the keyword |
| Otp.MatchAt | server.js:36-43 | each of the six patterns anchored at one position: any hit is a well-formed match starting there |
| Otp.FirstMatch | server.js:46 | `text.match(pattern)` is leftmost: a hit matches at its start, no earlier position matches, and no match means no position matches |
| Otp.FirstDigitRun | server.js:49 | `/\d+/` finds a non-empty run of digits |
| Otp.FirstDigitRunOfMatch | server.js:49-50 | re-scanning a matched text with `/\d+/` gives back exactly the capture group |
| Otp.TryPatterns | server.js:45-55 | any result of the pattern loop is 4 to 6 digits occurring in the text (which pattern wins is stated by `OtpProperties.TryPatternsIsFirstHit`) |
| Otp.ExtractOtp | server.js:35-56 | the result is null or a substring of the input made of 4 to 6 ASCII digits |
| OtpProperties.BareCodeMatchesBoundedRun | server.js:37 | the bare pattern matches at a position if and only if a word-bounded run of 4 to 6 digits starts there, and the match is that run |
| OtpProperties.AcceptedCharsInBmp | server.js:37-51 | every character a pattern class, a `\b` word test or a case-folded keyword letter accepts is below U+10000, so UTF-16 and code-point strings match alike |
| OtpProperties.LeftmostBoundedRunWins | server.js:37-51 | when the text holds a word-bounded run of 4 to 6 digits, the code is the leftmost such run, whatever keywords appear elsewhere |
| OtpProperties.NoBoundedRunFallsThrough | server.js:37-54 | with no word-bounded run, the result is what the five keyword patterns give, in list order |
| OtpProperties.GreedyDigitsLongest | server.js:38-42 | greedy `\d{4,6}` takes min(6, run length) digits when the run has at least 4, and fails otherwise |
| OtpProperties.GivingBackSeparatorsFails | server.js:38-40 | giving back a separator never yields a match, because a separator is not a digit |
| OtpProperties.LongestSeparatorsDecide | server.js:38-40 | with the separator run at its longest, the digits that follow it alone decide the match |
| OtpProperties.LabelledMatchesLongestRuns | server.js:38-42 | a keyword pattern matches exactly when the keyword is there and the longest separator run is followed by at least 4 digits; the group is the first min(6, run) of them |
| OtpProperties.SpacesThenPhraseLongest | server.js:41 | backtracking the white-space star succeeds exactly when "is your code" follows the spaces it holds |
| OtpProperties.DigitsThenPhraseLongest | server.js:41 | trying at most k digits, `(\d{4,6})[\s]*is your code` matches exactly when the whole digit run has 4 to k digits and spaces then the phrase follow it; the group is that whole run, since a shorter group leaves a digit before the phrase |
| OtpProperties.CodeBeforePhraseMatchesLongestRuns | server.js:41 | the fifth pattern matches at a position exactly when a maximal run of 4 to 6 digits starts there and is followed by spaces and "is your code" |
| OtpProperties.OtpNeedsFourDigits | server.js:37-42 | text without four consecutive digits has no code |
| OtpProperties.BareRunBeforeLabel | server.js:37-38 | `"654321 code: 123456"` yields `654321`: the bare pattern is tried before the labelled ones |
| OtpProperties.KeywordGluedToDigits | server.js:37-38 | `"code1234"` has no word-bounded run, and the `code` pattern yields `1234` |
| OtpProperties.TryPatternsIsFirstHit | server.js:45-54 | the loop returns the capture group of the first pattern in list order that matches anywhere in the text; the `numbers[0].length >= 4` guard never passes a match over |
| OtpProperties.ExtractOtpIsFirstHit | server.js:35-56 | `extractOTP` is the group of the first of the six patterns, in order, that matches, and `null` when none matches |
| Mailbox.SubjectOf | server.js:84 | a non-empty raw subject is kept as it is; the subject is never empty, and it is "No Subject" exactly when the raw subject is absent or empty (or is literally that string) |
| Mailbox.BodyOf | server.js:85 | the body is the text body if non-empty, else the HTML body if non-empty, else empty |
| Mailbox.ToMessageNormalised | server.js:81-95 | a message built from a readable item carries the item's fields, the defaulted subject and body, and the code extracted from subject, a space and body |
| Mailbox.CheckEmailAccount | server.js:69-113 | the loop over the listed entries returns exactly the reference normalisation of the list response, including the empty result when an entry is `null` |
| Mailbox.ReadablesExactly | server.js:73-104 | the kept items are a subsequence of the listed ones in provider order; an item is kept if and only if its detail fetch succeeded with data; kept plus dropped equals listed |
| Mailbox.NormalizeSpec | server.js:69-113 | a failed or non-array list, or one with a `null` entry, gives no messages; otherwise there is one normalised message per readable item, in order, built from it, so the output is never longer than the input |
| Mailbox.MiddleFailureDropsOnlyIt | server.js:75-103 | one failed detail fetch among three items drops exactly that message and keeps the order of the others |
| Mailbox.NullEntryDiscardsPoll | server.js:73-113 | as written, a readable item followed by a `null` entry yields no messages, where isolating the failure would keep that item's message |
| Mailbox.NullEntryCostsOnlyItself | server.js:73-104 | with per-entry isolation as intended, removing a `null` entry from the list does not change the messages |
| Mailbox.NormalizeWithoutNull | server.js:69-113 | without `null` entries the code as written and the intended isolation give the same messages |
| Registry.Empty | server.js:29 | the empty registry satisfies the invariant: running timers are exactly the registered handles, one per address |
| Registry.Start | server.js:117-135 | the address gets a fresh handle; its old timer is cleared; the other addresses keep their handles; the key set gains exactly the address; the invariant is preserved |
| Registry.Stop | server.js:138-144 | the address is removed and its timer cleared; the other addresses keep their handles; stopping an untracked address changes nothing; the invariant is preserved |
| Registry.OneTimerPerAddress | server.js:117-144 | under the invariant, the number of running timers equals the number of tracked addresses |
| Registry.StartTwiceLikeOnce | server.js:117-135 | starting an address twice gives the same key set and timer count as starting it once, and the first timer is no longer running |
| Registry.ClearedTimerIsSilent | server.js:117-144 | after a stop or a restart, the replaced timer is no longer running, so no tick that starts after the stop or restart reaches the callback |
| Registry.StopUndoesStart | server.js:117-144 | stopping an untracked address is a no-op; stopping right after starting restores the map and the running timers |
| Hub.Connect | server.js:387-403 | the client gets an entry with no address and the current time; other clients are unchanged; the reply is a welcome with its id |
| Hub.OnMessage | server.js:406-424 | register sets only that client's address; ping answers pong at the current time; anything else, or an unknown client, changes nothing; `lastActivity` is never changed |
| Hub.Disconnect | server.js:427-435 | close and error remove only that client |
| Hub.Sweep | server.js:439-448 | the clean-up keeps exactly the entries idle for at most an hour, unchanged, and every closed client was idle for more than an hour |
| Hub.FreshExactly | server.js:439-448 | an entry survives the clean-up if and only if it is not stale; survivors are unchanged; a second clean-up at the same time removes nothing |
| Hub.RegisterTouchesOnlyItsClient | server.js:411-414 | a register frame changes no other client's entry and does not change which clients are stale |
| Hub.ActiveClientIsSwept | server.js:392-442 | as written, a client that registers just before the hour is up is still removed at the next clean-up |
| Hub.OnMessageTouching | server.js:406-424 | the message handler with `lastActivity` refreshed to the frame's time, and otherwise the same updates and replies |
| Hub.RecentClientSurvives | server.js:439-448 | with refreshing, a client that sent any frame within the hour survives the clean-up |
| Hub.Step | server.js:387-448 | one table event as written: connect adds the id, a frame keeps the key set and the client's `lastActivity`, close or error removes the id, the clean-up keeps exactly the entries that are not stale, each unchanged; other clients are untouched |
| Hub.SenderSweptAsWritten | server.js:392-442 | as written, a client that connects, sends any frame an hour later and meets the clean-up just after is closed |
| Hub.StepTouching | server.js:406-448 | the corrected event loop: a frame refreshes the client's `lastActivity` to its time; every other event is handled as written |
| Hub.CleanUpKeepsRecentSenders | server.js:406-448 | in the corrected event loop, a frame sent within the hour keeps its client through the next clean-up |
| Addresses.Pick | server.js:162 | `Math.floor(Math.random() * n)` is an index below `n` |
| Addresses.GenerateUsername | server.js:157-165 | the username starts with the prefix (or nothing), `max(8 - prefix.length, 4)` characters are appended with `length` in UTF-16 code units, so the username's UTF-16 length is max(8, prefix length + 4), and each appended character is the `[a-z0-9]` character the next draw picks |
| Addresses.AstralPrefixCountsTwice | server.js:159-160 | a one-emoji prefix has UTF-16 length 2, so six characters are appended to it, as to a two-letter prefix |
| Addresses.GenerateAddress | server.js:156-170 | one address as the loop body builds it: the generated shape, and the domain after `@` is the one picked by the draw that follows the username's draws |
| Addresses.PickDomain | server.js:168 | the chosen domain is one of `DOMAINS` |
| Addresses.CreateEmails | server.js:151-171 | `count` addresses (1 when the field is missing, none when it is `null` or not positive), each the prefix, `max(8 - prefix.length, 4)` random `[a-z0-9]` characters, `@`, and a domain from `DOMAINS` |
| Routes.Split | server.js:275 | `split('@')` gives at least one piece, and no piece contains the separator |
| Routes.JoinSplit | server.js:275 | joining the pieces of a split with the separator gives back the original string |
| Routes.SplitJoin | server.js:275 | splitting a join of separator-free pieces gives back the pieces |
| Routes.DomainOfNeedsAt | server.js:275-277 | the domain after `split('@')` is defined if and only if the address contains `@`, and it holds no `@` |
| Routes.Reverse | server.js:208 | `reverse()` keeps the length and puts element k at position length − 1 − k |
| Routes.GetMessages | server.js:196-209 | 400 if and only if the address has no `@`; otherwise the normalised messages newest first, with their count |
| Routes.ResultFor | server.js:239-245 | one check result: the messages newest first, their count, and `hasOTP` true if and only if some message carries a code |
| Routes.SomeOtpReversed | server.js:242-244 | `some(msg => msg.otp)` over the reversed list holds exactly when some message carries a code, given that every present code is a non-empty string |
| Routes.CheckEmails | server.js:227-245 | 400 if and only if `emails` is not an array or is empty; otherwise one result per address in request order |
| Routes.VerifyEmail | server.js:275-302 | success if and only if the piece between the first and the second `@` (`split('@')[1]`) is one of `DOMAINS`, so `a@1secmail.com@x` passes; valid if and only if, in addition, the provider's list request succeeds |
| Routes.DomainOfJoined | server.js:275 | for `u@d` with no `@` in either part, the domain read by the destructuring split is `d` |
| Routes.GeneratedAddressHasKnownDomain | server.js:167-169 | an address generated from a prefix without `@` passes the domain check of verify-email |
| Routes.DeleteEmail | server.js:336-344 | afterwards the address is not tracked and its timer is cleared, every other tracked address stays tracked with its timer, a second delete changes nothing, and the registry invariant is preserved |
| Routes.GetStats | server.js:357-363 | `activeAccounts` is the number of running poll timers (under the registry invariant); 7 domains; a 5-second interval |

## Left out

- HTTP routing, status codes beyond the 400 guards, static files, the `message` and `timestamp` fields of replies, and logging. These are presentation.
- The provider's HTTP calls and the URLs built from `email.split('@')` in `checkEmailAccount`. Their answers are inputs instead.
- Timers. The 5-second cadence, the asynchronous ticks, and a tick already in flight when its timer is cleared are concurrency. Only which timers run is modelled. `Registry.TickDelivers` states when a running timer's tick reaches the callback. No route calls `startEmailChecking` at all, so in the running server no timer is ever started and no callback is ever passed.
- WebSocket transport, `JSON.parse`, and the way client ids are built from `Date.now()` and `Math.random()`. Ids, times and already-classified commands are inputs.
- `new Date(msg.date).getTime()`. Timestamps are given integers.
- The catch branch of `check-emails` (server.js:246-252). For string addresses it cannot be reached, because `checkEmailAccount` catches every error itself. A non-string item whose conversion to a string throws (an object whose `toString` is not callable) makes the handler at server.js:110-111 throw and reaches it; `emails` items are modelled as strings.
- The `start-realtime` handler. It only logs and replies; it starts no polling and wires no broadcast.
- SIGINT shutdown, the redis import, and dotenv. These are process setup and teardown.
- JavaScript strings are UTF-16 code units, while Dafny characters are Unicode scalar values. Every character that any of the six OTP patterns can accept (a digit, a `\s` or `[:\s]` character, a `\b` word character, a keyword letter under ASCII case folding) lies in the Basic Multilingual Plane (`OtpProperties.AcceptedCharsInBmp`). A character outside it is two surrogate units in JavaScript and one `char` here, and the patterns reject it in either form, so the difference does not show there. The one `length` that counts characters of arbitrary text, `result.length` in `generateUsername`, is modelled in UTF-16 units by `Addresses.Utf16Length`.
- Request fields of unexpected JSON types: a non-string prefix or subject, or a non-integer or string `count`. The model types them as strings and integers.
- Addresses.CreateEmails: states the shape of every address, not which draws produce which address. The per-draw correspondence is stated for `Addresses.GenerateUsername` and `Addresses.GenerateAddress`.
- Addresses.GenerateUsername: `Math.random()` is modelled as an exact real in [0, 1) rather than a double, so floating-point rounding of `r * 36` is not modelled.

## Findings

| source | as written | input that shows it | evidently intended | confidence | as-written member | corrected member |
|---|---|---|---|---|---|---|
| server.js:73-113 | a `null` entry in the provider's list throws at `msg.id` inside the per-item `try`, and the handler at line 102 reads `msg.id` again, so the outer handler returns `[]` for the whole poll | the list `[m, null]` with `m` readable: no messages instead of `m`'s | each entry's failure costs only that entry, as the per-item `try` intends | low, not executed | Mailbox.NullEntryDiscardsPoll | Mailbox.NullEntryCostsOnlyItself |
| server.js:392-442 | `lastActivity` is set only when the client connects; the `message` handler never updates it, and the hourly clean-up closes clients whose `lastActivity` is over an hour old | a client connects at time 0, sends `register` at 3600000 (and keeps sending), and the clean-up runs at 3600001: it is closed | every frame refreshes `lastActivity`, so only clients idle for an hour are closed | medium, not executed | Hub.ActiveClientIsSwept | Hub.RecentClientSurvives |
