# A verified model of the chat service's rate limiting, caching, OTP and context logic

This project is a Dafny model of the parts of the chat backend that hold real logic:

- **`InMemoryRateLimitService`** (module `RateLimit`). A sliding-window limiter. Each identifier maps to its list of admitted request times. A check first runs a sweep of all identifiers, gated to run every 300 seconds at most. It then compacts the identifier's own list to the trailing window, and admits the request only while fewer than `limit` timestamps remain.
- **`InMemoryCacheService`** (module `Cache`). A key → (value, expiry) table, where expiry 0 means "never". Reads evict the one expired key they touch, and `set` runs a gated sweep.
- **`OTPService`** (module `Otp`). The one-time-password lifecycle over a table of verification rows. It covers create with a resend cooldown, verify with attempt accounting, resend, status, 24-hour cleanup, invalidation and statistics.
- **The two `get_conversation_context` builders** (modules `UtilsGeminiService` and `GeminiService`, with the shared module `Conversation`). Each keeps the most recent messages, renders each as "Role: content", and joins them with newlines.
- **The request validators of the API schemas** (module `Schemas`): password length, page ≥ 1, and limit 1..100.

Shared helpers live in `Wrappers` (`Option`, `Result`) and `Text`. `Text` provides `Join` and its inverse `Split`, with the round trip proved, and `NatToString`/`ParseNat`, which render the numbers inside the services' messages.

## How the system maps to Dafny

- The limiter, the cache and the OTP service are classes whose fields the methods update in place:
  - the limiter's `requests: map<string, seq<int>>` and `lastCleanup`;
  - the cache's `entries: map<string, Entry>` and `lastCleanup`;
  - the OTP service's `records: seq<OtpRecord>` and `outbox: seq<Mail>`.
- Each state-changing method's postcondition equals a pure function of the old state, such as `Check`, `Cleanup`, `AfterSet`, `Bump`, `CreateStep`, `VerifyStep`, `ResendStep`, `KeepRecent` or `Invalidated`. The properties the services promise are lemmas about those functions.
- Time is an integer number of seconds passed in as `now`. OTP minutes become `* 60`, and "24 hours" is 86400 seconds.
- The OTP table is kept in insertion order. A `.first()` of a query, which has no ordering clause in the source, is fixed to the earliest matching row.
- The random digits of a new code are passed in as `draws`, one per digit, and each becomes `draw % 10`.
- The email service's answer is the `emailSent` parameter. Every send the service attempts is appended to `outbox`, so "no email is sent" can be stated.
- The environment settings become parameters:
  - `RATE_LIMIT_WINDOW` is the limiter's `sweepWindow`;
  - the OTP settings are a `Config`, whose environment defaults are `DefaultConfig`;
  - `MAX_CONTEXT_MESSAGES` is `envMaxContext`.
- Exceptions that the source raises on purpose are modelled:
  - the create-cooldown `ValueError` is `CooldownActive`, and resend turns it into its generic failure;
  - the `KeyError` of the utilities' context builder on a message without "role" or "content" is a `None` result;
  - a validator's `ValueError` is `Err`.

Behaviour of the code that the model reproduces on purpose:

- The limiter's sweep compacts every list with `RATE_LIMIT_WINDOW`, not with the per-call `window` (utils/rate_limit_service.py:38).
- A refused check still stores the compacted list (utils/rate_limit_service.py:69-76).
- `increment` does not look at the stored entry's expiry. An expired counter continues from its stale value, and the Python `bool` values count as 1 and 0.
- `create_otp_verification` looks for an existing row with the filter `expires_at > now`. Verify, resend and status do not use that filter. So an expired row that was never verified stays active next to a newer live row of the same pair, and only "at most one live row per pair" holds (lemma `Otp.StaleActiveRowShadowsNewCode`). Because the stale row comes first:
  - verify answers "OTP has expired" once even for the new code; that verify closes the stale row, and the next verify reaches the new code (lemma `Otp.SecondVerifyReachesNewCode`);
  - while the new row is within its cooldown, resend passes its own cooldown check on the stale row but then fails inside create on the new row's cooldown;
  - after that cooldown, resend succeeds: create closes the new row and appends a third, and the stale row stays active in front of it (lemma `Otp.StaleActiveRowOutlivesResend`).
- At the expiry instant itself, create treats a row as expired (`expires_at > now`, utils/otp_service.py:47-52) but verify does not (it rejects only when `now > expires_at`, utils/otp_service.py:126). A create at that instant issues a second code and leaves the first active, and the first code still verifies at that instant (lemma `Otp.ExpiryInstantStillVerifies`).
- `cleanup_expired_otps` deletes by expiry alone, whether or not the row is active.

## Model

| member | source | states |
|---|---|---|
| Text.SplitJoin | utils/gemini_service.py:179 | joining parts that hold no newline with "\n" and splitting at newlines gives the parts back |
| Text.NatToString | utils/otp_service.py:146 | the decimal rendering of a number in a message is non-empty, all digits, and one digit exactly below 10 |
| Text.ParseNatToString | utils/otp_service.py:146 | parsing the rendered number gives the number back |
| RateLimit.AfterMember | utils/rate_limit_service.py:69-72 | a timestamp survives compaction exactly when it was stored and is later than the cutoff |
| RateLimit.AfterAllAbove | utils/rate_limit_service.py:69-72 | every timestamp left by compaction is later than the cutoff |
| RateLimit.AfterAppend | utils/rate_limit_service.py:69-79 | compaction distributes over appending |
| RateLimit.AfterMultiset | utils/rate_limit_service.py:69-72 | compaction keeps each timestamp later than the cutoff as often as it occurs, and drops every other, so a count of the compacted list counts repeated timestamps |
| RateLimit.AfterTwice | utils/rate_limit_service.py:38-39 | compacting by the sweep and then by the check equals compacting once at the later cutoff |
| RateLimit.Earliest | utils/rate_limit_service.py:105 | `min` of a non-empty list is an element no larger than any other |
| RateLimit.SweepByKeys | utils/rate_limit_service.py:34-47 | a table with the sweep's identifiers and compacted lists is the sweep's result |
| RateLimit.SweepTimestamps | utils/rate_limit_service.py:36-47 | after a sweep each identifier's list is its old list compacted to the cutoff, and empty lists are dropped |
| RateLimit.CleanupTimestamps | utils/rate_limit_service.py:26-49 | the gated sweep leaves each list alone when under 300 s have passed, and otherwise compacts it with `RATE_LIMIT_WINDOW` |
| RateLimit.CleanupThenCompact | utils/rate_limit_service.py:26-72 | the sweep followed by the check's own compaction leaves the timestamps after the check's window start, or after the sweep window's start when a sweep runs and that window is shorter |
| RateLimit.CheckEffect | utils/rate_limit_service.py:54-80 | after a check the identifier's list holds its stored timestamps after that effective cutoff, plus `now` exactly when admitted; the call is refused exactly when those timestamps number `limit` or more |
| RateLimit.CheckLeavesOthers | utils/rate_limit_service.py:54-80 | a check changes every other identifier only by the gated sweep, and the last sweep time is the sweep's |
| RateLimit.NonPositiveLimitAlwaysRejects | utils/rate_limit_service.py:75-76 | a limit of 0 or less refuses every call |
| RateLimit.AdmittedCallAppendsNow | utils/rate_limit_service.py:75-80 | an admitted call appends exactly `now` and leaves at most `limit` timestamps |
| RateLimit.UnknownIdentifierAdmitted | utils/rate_limit_service.py:65-80 | an identifier with no list is admitted by a positive limit and its list becomes `[now]` |
| RateLimit.CountWithinAppend | utils/rate_limit_service.py:79 | appending a timestamp adds one to exactly the windows containing it |
| RateLimit.CountWithinLater | utils/rate_limit_service.py:68-75 | with nothing stored after `t`, a window ending later holds no more than the one ending at `t` |
| RateLimit.CountWithinEarlier | utils/rate_limit_service.py:79 | a later admission does not count in a window that ends before it |
| RateLimit.WindowViewLater | utils/rate_limit_service.py:69-72 | a list that agrees with the admission history on one trailing window agrees with it on every later one |
| RateLimit.CompactedWindowView | utils/rate_limit_service.py:38-39 | compacting to a cutoff no later than the window's start leaves the window as it was |
| RateLimit.CleanupKeepsWindowView | utils/rate_limit_service.py:26-49 | when the check's window is no longer than `RATE_LIMIT_WINDOW`, a sweep at a later time drops nothing that is inside the window |
| RateLimit.CheckOwnList | utils/rate_limit_service.py:63-80 | the checked identifier's list after a check, and the refusal condition |
| RateLimit.AdmissionKeepsCount | utils/rate_limit_service.py:75-79 | admitting while the window has room keeps every trailing window within `limit` |
| RateLimit.RefusedStepKeepsInvariant | utils/rate_limit_service.py:68-76 | a refusing step keeps the compacted list in agreement with the admission history and within the bound |
| RateLimit.AdmittedStepKeepsInvariant | utils/rate_limit_service.py:68-80 | an admitting step keeps the compacted list plus `now` in agreement with the history plus `now`, and within the bound |
| RateLimit.CheckKeepsWindowInvariant | utils/rate_limit_service.py:54-80 | a check of the identifier keeps its window invariant, adding `now` to its history exactly when admitted |
| RateLimit.OtherCheckKeepsWindowInvariant | utils/rate_limit_service.py:54-80 | a check of another identifier, with any limit and window, keeps the invariant |
| RateLimit.Run | utils/rate_limit_service.py:54-80 | a run of calls yields one answer per call |
| RateLimit.RunKeepsWindowInvariant | utils/rate_limit_service.py:54-80 | every call of a run at non-decreasing times keeps the invariant of a tracked identifier |
| RateLimit.AdmittedFirst | utils/rate_limit_service.py:79 | the admitted times of a run extend by the first call's time exactly when it was admitted for the identifier |
| RateLimit.LongWindowOverAdmits | utils/rate_limit_service.py:34-80 | with a window longer than `RATE_LIMIT_WINDOW`, limit 1 admits two calls 300 seconds apart inside one window |
| RateLimit.SlidingWindowBound | utils/rate_limit_service.py:68-80 | over any run at non-decreasing times with a fixed limit and window (no longer than `RATE_LIMIT_WINDOW`) for an identifier, no trailing window holds more than `limit` admissions of it |
| RateLimit.TotalOverRemove | utils/rate_limit_service.py:127 | the request total over a key set is one list's length plus the total over the rest |
| RateLimit.RateLimiter.constructor | utils/rate_limit_service.py:20-24 | starts with no lists and the last sweep at `now` |
| RateLimit.RateLimiter.CleanupExpired | utils/rate_limit_service.py:26-49 | the new state is the gated sweep of the old state |
| RateLimit.RateLimiter.SweepAll | utils/rate_limit_service.py:34-47 | the two loops together leave exactly the sweep of the old table |
| RateLimit.RateLimiter.CompactAll | utils/rate_limit_service.py:35-43 | the first loop compacts every list to the cutoff and collects exactly the identifiers whose lists became empty |
| RateLimit.RateLimiter.DeleteKeys | utils/rate_limit_service.py:45-47 | the second loop deletes exactly the collected identifiers and leaves every other list as it was |
| RateLimit.RateLimiter.IsRateLimited | utils/rate_limit_service.py:54-80 | the answer and the new state are those of `Check` on the old state |
| RateLimit.RateLimiter.GetRateLimitInfo | utils/rate_limit_service.py:86-111 | `{0, 0}` for an unknown identifier; otherwise `current` counts exactly the stored timestamps in the window, and `remaining_time` is `max(0, window - (now - oldest))` for the oldest of them, or 0 when there is none |
| RateLimit.InfoPredictsCheck | utils/rate_limit_service.py:86-111 | the next check refuses exactly when the info reports at least `limit` requests, if no sweep intervenes or the sweep's window is at least the check's |
| RateLimit.RateLimiter.ClearRateLimit | utils/rate_limit_service.py:117-121 | removes exactly that identifier's list |
| RateLimit.RateLimiter.GetStats | utils/rate_limit_service.py:123-133 | reports the number of identifiers, the total number of stored timestamps and the last sweep time |
| Cache.SetThenGet | utils/rate_limit_service.py:166-200 | right after `set(k, v, e)`, a read of `k` at any time sees `v` exactly while the entry has not expired |
| Cache.FalsyExpireNeverExpires | utils/rate_limit_service.py:170 | with `expire` None or 0 the entry is seen at every later time |
| Cache.CleanupInvisible | utils/rate_limit_service.py:144-164 | the sweep removes nothing that a read at the same or a later time would see |
| Cache.SetLeavesOtherKeys | utils/rate_limit_service.py:166-182 | `set` of one key changes what no other key shows from then on |
| Cache.EvictionInvisible | utils/rate_limit_service.py:184-238 | evicting an expired key on read changes what no key shows at that time |
| Cache.BumpTimes | utils/rate_limit_service.py:240-252 | successive increments return one value per call |
| Cache.BumpTimesValues | utils/rate_limit_service.py:240-252 | the i-th of a series of increments by `a` returns the start value plus `(i + 1) * a`, where the start is the stored int (a bool as 1 or 0, anything else as 0) |
| Cache.BumpTimesTable | utils/rate_limit_service.py:240-252 | after the increments the counter is stored with no expiry and every other key is unchanged |
| Cache.IncrementFromAbsent | utils/rate_limit_service.py:240-252 | N calls of `increment(k)` on an absent key return N |
| Cache.CacheService.constructor | utils/rate_limit_service.py:138-142 | starts empty with the last sweep at `now` |
| Cache.CacheService.CleanupExpired | utils/rate_limit_service.py:144-164 | when 300 s have passed, deletes exactly the expired entries and records the sweep time; otherwise changes nothing |
| Cache.CacheService.Set | utils/rate_limit_service.py:166-182 | returns True; the table is the gated sweep of the old one with `k` stored under the expiry computed before the sweep |
| Cache.CacheService.Get | utils/rate_limit_service.py:184-204 | returns the live value or the default, and removes the key exactly when it has expired |
| Cache.CacheService.Delete | utils/rate_limit_service.py:206-216 | returns True exactly when the key was present, and removes only that key |
| Cache.CacheService.Exists | utils/rate_limit_service.py:218-238 | is True exactly when `get` would return the stored value, and evicts like `get` |
| Cache.CacheService.Increment | utils/rate_limit_service.py:240-256 | returns the old counter plus the amount and stores it with expiry 0 |
| Cache.CacheService.Clear | utils/rate_limit_service.py:258-261 | empties the table |
| Cache.CacheService.GetStats | utils/rate_limit_service.py:263-278 | reports the number of entries, the number of those already expired, and the last sweep time |
| Otp.FirstFrom | utils/otp_service.py:117-121 | the row found matches the query and no earlier row from the start index does; none is found only when no row matches |
| Otp.First | utils/otp_service.py:47-52 | `.first()` is the earliest matching row, or none when no row matches |
| Otp.AtMostOneLiveLater | utils/otp_service.py:47-52 | "at most one live row per pair" stays true as time passes |
| Otp.WeakeningKeepsAtMostOneLive | utils/otp_service.py:294-302 | deactivating or updating rows in place keeps at most one live row per pair |
| Otp.GenerateOtp | utils/otp_service.py:29-31 | the code has one character per draw, `otp_length` in all, and every character is a decimal digit |
| Otp.CreateCooldown | utils/otp_service.py:46-62 | create is refused exactly when the pair has a live row younger than the cooldown; the refusal names the remaining seconds, which are positive, and leaves the table unchanged |
| Otp.CreateSuccess | utils/otp_service.py:64-93 | a successful create deactivates the live row of the pair, if any, leaves the other rows alone, appends one row with the code, `expires_at = now + expiry` and `max_attempts`, and returns the code with the email result |
| Otp.CreateKeepsAtMostOneLive | utils/otp_service.py:47-83 | create keeps at most one active, unexpired row per pair |
| Otp.CreateKeepsAllOk | utils/otp_service.py:69-83 | create keeps every row well formed: attempts zero or within the maximum, verified exactly when a verification time is set, and verified rows inactive |
| Otp.VerifyWithoutActive | utils/otp_service.py:116-124 | with no active row, verify returns (False, "No active OTP found for this email", None) and changes nothing |
| Otp.VerifyEarlyExits | utils/otp_service.py:126-136 | expiry is checked before exhaustion; both deactivate the row, return False and count no attempt |
| Otp.VerifyCountsAttempt | utils/otp_service.py:138-159 | otherwise verify adds exactly one attempt and succeeds exactly on a matching code. A mismatch keeps the row active and names the remaining attempts while some remain, and deactivates it when none do. A match marks the row verified at `now` and closes it |
| Otp.VerifyWeakens | utils/otp_service.py:116-159 | verify only changes the row it found, never reopens or moves a row, and leaves inactive rows as they were |
| Otp.VerifyKeepsAtMostOneLive | utils/otp_service.py:116-159 | verify keeps at most one live row per pair |
| Otp.VerifyKeepsAllOk | utils/otp_service.py:133-159 | verify keeps every row well formed: attempts zero or within the maximum, verified exactly when a verification time is set, and verified rows inactive |
| Otp.VerifiedThenNoActive | utils/otp_service.py:117-124 | after a successful verify of the pair's only active row, a later verify reports "No active OTP found for this email" |
| Otp.ResendEffect | utils/otp_service.py:177-206 | resend fails, sends nothing and changes nothing without an active row old enough; otherwise it acts as create and succeeds exactly when create did and the email was sent; create's cooldown refusal becomes "Failed to resend OTP. Please try again" |
| Otp.ResendKeepsAllOk | utils/otp_service.py:177-202 | resend keeps every row well formed |
| Otp.ResendKeepsAtMostOneLive | utils/otp_service.py:177-202 | resend keeps at most one live row per pair |
| Otp.Status | utils/otp_service.py:215-249 | there is an active OTP exactly when an active row of the pair exists, otherwise the answer is the default one; for the first active row: timestamps are its own, expired exactly when `now` is past its expiry, `expires_in_seconds` is the time left until it (0 once passed, so 0 when expired), `attempts_remaining` is the attempts left before the maximum (0 once reached), `can_resend` exactly when the cooldown has run out |
| Otp.StatusAgrees | utils/otp_service.py:215-249 | no active OTP is what verify and resend report as missing; verify reports expiry exactly when the status is expired; on an unexpired row it reports exhaustion exactly when no attempts remain, and otherwise counts one attempt; `can_resend` false is exactly resend's cooldown refusal with the table unchanged; `can_resend` true hands resend over to create, whose table and mail it returns, successful exactly when the mail is sent |
| Otp.PleaseWaitDiffers | utils/otp_service.py:185-206 | the cooldown message differs from every other message of resend |
| Otp.CountedMessagesDiffer | utils/otp_service.py:126-159 | the messages of a verify that counts an attempt differ from the expiry and exhaustion messages |
| Otp.KeepRecent | utils/otp_service.py:268-272 | cleanup keeps exactly the rows whose expiry is not before the cutoff |
| Otp.KeepRecentMultiset | utils/otp_service.py:268-272 | cleanup keeps each row whose expiry is not before the cutoff as often as it occurs, and drops every other |
| Otp.KeepRecentAppend | utils/otp_service.py:268-272 | cleanup keeps the surviving rows in their order: filtering a concatenation is concatenating the filtered parts |
| Otp.KeepRecentCount | utils/otp_service.py:270-279 | the number reported deleted is the number of rows removed |
| Otp.AtMostOneLiveTail | utils/otp_service.py:270-272 | dropping the first row keeps at most one live row per pair |
| Otp.AtMostOneLiveCons | utils/otp_service.py:270-272 | keeping a row in front keeps the invariant when it clashes with no live row behind it |
| Otp.KeepRecentKeepsAllOk | utils/otp_service.py:270-272 | deleting rows keeps every remaining row well formed |
| Otp.KeepRecentKeepsAtMostOneLive | utils/otp_service.py:270-272 | deleting rows keeps at most one live row per pair |
| Otp.InvalidateEffect | utils/otp_service.py:294-302 | invalidation deactivates exactly the active rows of the email (and purpose, when given and non-empty), changes no other field of those rows, and leaves every other row as it was |
| Otp.InvalidateKeepsAtMostOneLive | utils/otp_service.py:294-302 | invalidation keeps at most one live row per pair |
| Otp.StatsPartition | utils/otp_service.py:320-337 | no row counts both as active and as expired, so the two counts fit in the total; verified rows are at most the total |
| Otp.ExpiryInstantStillVerifies | utils/otp_service.py:47-52 | at the instant of expiry, create issues a second code without closing the first, the first code still verifies, and the second row stays active so its code verifies next |
| Otp.StaleActiveRowShadowsNewCode | utils/otp_service.py:47-52 | after a code has expired unused, a second create leaves two active rows. Verify of the new code then reports "expired" once, and resend fails within the new row's cooldown |
| Otp.SecondVerifyReachesNewCode | utils/otp_service.py:117-159 | the verify that reports the stale row expired closes it, so the next verify of the new code succeeds |
| Otp.StaleActiveRowOutlivesResend | utils/otp_service.py:174-206 | after the new row's cooldown, resend past the stale row succeeds, closes the new row, appends a third, and leaves the stale row active so that verify of the third code also reports "expired" |
| Otp.ThreeWrongCodes | utils/otp_service.py:133-150 | with three attempts, wrong codes report 2 then 1 attempts remaining, then "Maximum attempts exceeded", and a fourth verify finds no active code |
| Otp.OtpService.constructor | utils/otp_service.py:21-27 | starts with the given configuration, an empty table and no mail, so `Valid` holds at every time |
| Otp.OtpService.CreateOtpVerification | utils/otp_service.py:33-100 | the outcome and new table are `CreateStep`'s; exactly one email is sent on success and none on refusal; the code has `otp_length` digits. It keeps `Valid`: every row well formed and at most one live row per pair |
| Otp.OtpService.VerifyOtp | utils/otp_service.py:102-163 | the outcome and new table are `VerifyStep`'s, and no email is sent. It keeps `Valid`: every row well formed and at most one live row per pair |
| Otp.OtpService.ResendOtp | utils/otp_service.py:165-206 | the outcome, the new table and the email sent are `ResendStep`'s. It keeps `Valid`: every row well formed and at most one live row per pair |
| Otp.OtpService.GetOtpStatus | utils/otp_service.py:208-259 | the status is `Status` of the table, and nothing changes |
| Otp.OtpService.CleanupExpiredOtps | utils/otp_service.py:261-284 | when disabled, returns 0 and changes nothing; otherwise it deletes exactly the rows that expired over 24 hours ago and returns how many. It keeps `Valid`: every row well formed and at most one live row per pair |
| Otp.OtpService.InvalidateUserOtps | utils/otp_service.py:286-313 | deactivates exactly the selected rows and returns how many there were. It keeps `Valid` at every time |
| Otp.OtpService.GetServiceStats | utils/otp_service.py:315-348 | active plus expired rows fit in the total, verified rows fit in the total, and the configuration is echoed |
| Conversation.PyTail | utils/gemini_service.py:172 | `xs[-k:]` is a suffix; the last `k` for positive `k`, the whole list for 0, all but the first `-k` for negative `k` |
| UtilsGeminiService.RecentIsTail | utils/gemini_service.py:172 | the length guard changes nothing: the kept messages are exactly `messages[-k:]` |
| UtilsGeminiService.KeptMessages | utils/gemini_service.py:168-172 | the kept messages are a suffix: the last `max_context`, all of them for 0, and the environment default when no limit is given |
| UtilsGeminiService.Context | utils/gemini_service.py:165-166 | an empty message list gives "" |
| UtilsGeminiService.MissingKeyRaises | utils/gemini_service.py:174-177 | a kept message without "role" or "content" makes the call raise |
| UtilsGeminiService.Lines | utils/gemini_service.py:174-177 | one line per message, in order, each its label and content |
| UtilsGeminiService.LinesSnoc | utils/gemini_service.py:174-177 | rendering one more complete message appends exactly its line |
| UtilsGeminiService.ContextLines | utils/gemini_service.py:174-179 | splitting the context at newlines gives, in order, "Human: content" for role "user" and "Assistant: content" otherwise, one per kept message |
| UtilsGeminiService.GetConversationContext | utils/gemini_service.py:163-179 | the loop's result is `Context` |
| GeminiService.Truncate | gemini_service.py:166 | `s[:200]` is the prefix of length `min(200, len(s))` |
| GeminiService.Lines | gemini_service.py:163-167 | one line per message, in order |
| GeminiService.Context | gemini_service.py:157-158 | an empty message list gives "" |
| GeminiService.LineBounded | gemini_service.py:165-167 | a line never exceeds the longer label, ": " and 200 content characters |
| GeminiService.ContextLines | gemini_service.py:161-169 | splitting the context at newlines gives, in order, "User: ..." for role "user" and "Assistant: ..." for any other or no role, with the content cut to 200 characters and a missing content as "", one per message of `messages[-max_messages:]` |
| GeminiService.GetConversationContext | gemini_service.py:145-169 | the loop's result is `Context` |
| Schemas.ValidatePassword | schemas.py:25-29 | accepts exactly the passwords of at least 6 characters, returns them unchanged, and otherwise fails with the source's message |
| Schemas.ValidatePage | schemas.py:153-157 | accepts exactly the pages from 1 up, returns them unchanged, and otherwise fails with the source's message |
| Schemas.ValidateLimit | schemas.py:159-163 | accepts exactly the limits 1 to 100, returns them unchanged, and otherwise fails with the source's message |
| Schemas.DefaultsAreValid | schemas.py:150-151 | the defaults page 1 and limit 20 pass their validators |

## Left out

- Locks and threads: every operation is one atomic sequential step. The unlocked interval test before the limiter's locked sweep is not modelled.
- Exceptions the source catches merely to fail safe are not modelled: the limiter failing open, the cache's error returns, the OTP service's database errors and rollback, and the top-level context builder returning "" on an error. In the model those operations always succeed.
- Logging, and the `created_at`/`expires_at` ISO-format strings of `get_otp_status`. The model returns the two times as integers.
- The database session, `commit` and `refresh`: the table is a sequence owned by the service, and each operation's changes take effect at once.
- The environment lookups: their values are constructor or call parameters.
- Default arguments: `max_messages=5` of the top-level context builder, `purpose="email_verification"`, `amount=1` of `increment` and `default=None` of `get` are explicit parameters in the model, supplied by every caller. The `None` defaults of the utilities' `max_context` and of `invalidate_user_otps`'s `purpose` are modelled as `Option` parameters.
- The clock: `time.time()` and `datetime.utcnow()` become an integer `now`. The `int(...)` truncation of fractional seconds therefore does not arise.
- The random choice of digits: it is the `draws` parameter.
- `send_otp_email`: it is the `emailSent` answer, and the MIME/SMTP work is not modelled.
- RateLimit.SlidingWindowBound: proved only for a window no longer than `RATE_LIMIT_WINDOW`. With a longer window the sweep can drop timestamps that are still inside that window, and the bound need not hold (lemma `RateLimit.LongWindowOverAdmits` gives a run that exceeds it).
- Otp.VerifiedThenNoActive: stated for a pair with one active row. With a second active row of the pair the next verify finds that row instead: in `Otp.ExpiryInstantStillVerifies` the row created at the expiry instant stays active after the first code verifies, and its code then verifies too.
- Pydantic runs a validator only on supplied values, not on the declared defaults; `Schemas.DefaultsAreValid` shows the defaults would pass anyway. The schema classes' other fields are not modelled; only the three validators are.
- Cache values are integers, booleans, strings or nothing. Other Python objects stored in the cache are not modelled.
- Message contents that are not strings, and a "content" key holding `None` in the top-level builder, are not modelled.
