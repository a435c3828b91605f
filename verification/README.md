# Proofs about vela-engine's stateful protocols and hand-written codecs

vela-engine is the Go backend of a shop assistant for merchants. This project models the parts of it
whose correctness depends on more than one function at a time, and proves what they promise. Run
`dafny verify dfyconfig.toml` (Dafny 4.11).

**Cart recovery** (`cart_*.dfy`). Abandoned checkouts are mailed a discount code and counted as
recovered when an order spends it. Four kinds of actor write the tables: a scanning executor, any
number of order attributors, the checkout webhook and the e-mail-opened webhook. `cart_state.dfy` says
what each single statement of each actor does; a *run* is any sequence of them, so every interleaving
of any number of actors is one. `cart_invariant.dfy` proves one inductive invariant for all of them,
`cart_safety.dfy`, `cart_delivery.dfy`, `cart_mail.dfy`, `cart_once.dfy` and `cart_retry.dfy` draw the
results.
`cart_handlers.dfy`, `cart_executor.dfy`, `cart_attributor.dfy` and `cart_webhooks.dfy` are the handlers
as imperative code over the shared tables. Before each of their statements an arbitrary `schedule` lets
others act and decides whether the statement succeeds; the tables are kept equal to what the recorded
run leaves behind, so all results about runs hold at every point of every handler.

**Rate limits, quotas and the webhook gate** (`redis.dfy`, `ratelimit*.dfy`). Redis commands with
time. The limit of a bucket holds in all runs if and only if the window plus the largest delay of an
INCR fits into the key's time to live; each limiter's choice of time to live is an instance, and every
run of the middleware under the default rules is shown to be such a run for each of its keys.

**Returns** (`returns.dfy`, `returns_overlap.dfy`). The status table, the handlers that obey it and the
two that go around it; what every life of a return keeps, and exactly when that survives handlers that overlap.

**Review insights** (`review_issues.dfy`, `review_insights.dfy`, `review_lists.dfy`,
`review_races.dfy`, `review_consumer.dfy`). Counters shared by concurrent consumers, and a list of the
five most recent distinct issues that is stored as text and must agree with the unbounded history.

**Review attribution** (`review_attribution.dfy`, `review_orders.dfy`). Repurchases, which a unique
index makes single, and RV- codes, which nothing does.

**Plan cache** (`plan_cache.dfy`, `storefront_chat.dfy`). An in-memory cache under racing loads,
deletes, queries and stores; its staleness bound, and that the bound is exact.

**Codecs and loops** (`text.dfy`, `utf8.dfy`, `utf8_runes.dfy`, `arithmetic.dfy`, `decimal.dfy`, `order_number.dfy`,
`config.dfy`, `slug.dfy`, `query_string.dfy`, `url_syntax.dfy`, `content_url.dfy`,
`content_attribution.dfy`, `white_space.dfy`, `platforms.dfy`).
Decimal text, order numbers in chat messages, splitting and address extraction, URL handles, tagged URLs
and reading them back, and a full outer join.

Where code and documentation disagree the code is modelled:

- A comment at internal/handler/cart_recovery_exec.go:97-98 says that a checkout whose e-mail failed
  is retried on the next scan. The lookup at lines 71-80 does not look at the status of the send it
  finds, so the recorded failed send blocks that campaign for that checkout for good
  (`CartMail.FailedSendBlocks`, `CartRetry.RetryIff`). Another campaign may mail it.
- `itoa` prints the smallest 64-bit integer as a bare minus sign (`Decimal.Itoa`).
- `extractOrderNumber` looks for "order" in the lower-cased message and reads on in the original at the
  same byte offset, which misses the number when lower-casing has shortened what precedes
  (`OrderNumber.ShortenedHeadLosesTheNumber`, `OrderNumber.OrderNumberIff`).
- `extractAddr` returns a wrong address if the password contains '@' (`Config.AddressIffNoAt`), and for
  URLs that the Redis client reads without complaint: with a query directly behind the host, or with a capital
  letter in the scheme (`Config.QueryInAddress`, `Config.CapitalsLoseAddress`). `Config.AddressIff` is exact.
- `splitStr` does not end for an empty separator (`Config.EmptySeparatorNeverEnds`); its only caller
  passes a comma.
- `attributeReviewRecovery` lets two overlapping orders use one code
  (`ReviewAttribution.OverlappingOrdersUseACodeTwice`).

## Model

| member | source | states |
|---|---|---|
| `CartInvariant.StepInv` | internal/handler/cart_recovery_exec.go:53-231 | each single statement of any actor keeps the global invariant that ties checkouts, codes, sends, the claim ledger and every actor's position to one another |
| `CartInvariant.StepGrows` | internal/handler/cart_recovery_attributor.go:74-106 | each single statement only moves a checkout along open, abandoned, recovered, never rewrites a used code, and moves a send only from sent to opened |
| `CartSafety.CheckoutLifecycle` | internal/handler/cart_recovery_exec.go:216-228 | over every continuation of every run a checkout only goes from open to abandoned or recovered and from abandoned to recovered; recovered and ordered are never left |
| `CartSafety.NoCodeForOrdered` | internal/handler/webhook_checkout.go:69-74 | no code ever points at a checkout that arrived as an order |
| `CartSafety.RecoveredWasPaidFor` | internal/handler/cart_recovery_attributor.go:94-106 | every recovered checkout has a used code of its own with the checkout's order id |
| `CartSafety.QuiescentMeansRecovered` | internal/handler/cart_recovery_attributor.go:94-106 | with no attributor between its two writes, the checkout of every used code is recovered, except where exactly that second write failed |
| `CartDelivery.AbandonedWasMailed` | internal/handler/cart_recovery_exec.go:102-228 | every abandoned checkout was mailed by the campaign it names: its sent or opened row answers to an accepted mail, and if the discount was positive that mail and row carry a code issued for this checkout and campaign, otherwise none |
| `CartSafety.FailedStaysFailed` | internal/handler/resend_webhook.go:111-143 | a failed send stays as it is in every continuation: it never becomes opened |
| `CartSafety.ClaimIsFinal` | internal/handler/cart_recovery_attributor.go:74-82 | the order id and total of a used code never change again |
| `CartSafety.UnusedCodesAreBlank` | internal/handler/cart_recovery_exec.go:135-148 | a code that no order has claimed carries neither order nor total |
| `CartSafety.ClaimsMatchCodes` | internal/handler/cart_recovery_attributor.go:74-108 | successful claims and used codes match one to one, with the same campaign, order and total |
| `CartSafety.RevenueIsConserved` | internal/handler/cart_recovery_attributor.go:74-82 | the totals stored with used codes add up to what the successful claims booked |
| `CartMail.OneMailPerCheckout` | internal/handler/cart_recovery_exec.go:53-231 | one executor whose abandoned updates succeed mails each checkout at most once over all campaigns and scans, whatever attributors and webhooks do meanwhile |
| `CartMail.TwoExecutorsMailTwice` | internal/handler/cart_recovery_exec.go:70-85 | a run in which every statement succeeds and one checkout is mailed twice, by an executor and then by another: the first condition is needed |
| `CartMail.FailedMarkMailsTwice` | internal/handler/cart_recovery_exec.go:216-228 | a run of one executor in which nothing fails but one such update, and one checkout is mailed twice: the second condition is needed |
| `CartOnce.MailedOnceIff` | internal/handler/cart_recovery_exec.go:70-85 | for any number of executors, campaigns and scans, and every run in which each passed lookup for a checkout ended in an accepted mail: it was mailed at most once if and only if no executor passed its lookup for it when it was mailed already or another stood between lookup and mail |
| `CartOnce.NoClashMailsOnce` | internal/handler/cart_recovery_exec.go:70-85 | without such a lookup a checkout is never mailed twice, whatever fails and whoever is still at work |
| `CartOnce.StepWeighs` | internal/handler/cart_recovery_exec.go:53-231 | the mails sent for a checkout and about to be sent change only with lookups that pass, by one up, and with executors that give it up, by one down |
| `CartOnce.SoleExecutorDoesNotClash` | internal/handler/cart_recovery_exec.go:53-231 | one executor whose abandoned updates succeed makes no such lookup |
| `CartMail.RecordedSendBlocksCampaign` | internal/handler/cart_recovery_exec.go:70-80 | once a send of a campaign and checkout is on record, of whatever status, that campaign never mails that checkout again |
| `CartMail.RefusalIsRecorded` | internal/handler/cart_recovery_exec.go:181-194 | a refused mail is put on record as a failed send of this checkout and campaign if the statement succeeds |
| `CartMail.FailedSendBlocks` | internal/handler/cart_recovery_exec.go:177-195 | a recorded failed send is such a send: the promised retry does not happen for that campaign |
| `CartRetry.RetryIff` | internal/handler/cart_recovery_exec.go:70-80 | for a free sole executor and a checkout that is still open: some continuation without failed lookup mails it for the campaign again if and only if no send of the two, of whatever status, is on record; discounted campaigns included |
| `CartCodes.PrefixFilter` | internal/handler/cart_recovery_attributor.go:147-163 | the prefix filter passes exactly the codes that begin with RECOVER- in any case |
| `CartCodes.IssuedCodeIsRecognised` | internal/handler/cart_recovery_exec.go:260-265 | for all random bytes, a code made from a generated prefix and suffix is left alone by trimming and gives back its campaign's prefix |
| `CartCodes.RandomSuffix` | internal/handler/cart_recovery_exec.go:260-265 | a suffix is four upper-case hexadecimal digits |
| `CartCodes.SuffixTellsBytes` | internal/handler/cart_recovery_exec.go:260-265 | the two pairs of digits are the values of the two random bytes |
| `CartHandlers.Shop.Interleave` | internal/handler/cart_recovery_exec.go:54-88 | between two statements of a handler others may run any statements; they move neither the handler's position nor its claims |
| `CartHandlers.Shop.FindCode` | internal/handler/cart_recovery_attributor.go:58-69 | a code on record before the query is found unless the query fails; what is found has that text |
| `CartHandlers.Shop.UpdateCode` | internal/handler/cart_recovery_attributor.go:74-92 | the claim wins exactly if the statement succeeds and the row was unused, and then enters order, total and ledger |
| `CartHandlers.Shop.UpdateRecovered` | internal/handler/cart_recovery_attributor.go:94-106 | the checkout becomes recovered by this order, or the failed update is remembered |
| `CartHandlers.Shop.QueryOpen` | internal/handler/cart_recovery_exec.go:57-63 | the scan answers, each once, exactly those of the wanted rows that are open with an address |
| `CartHandlers.Shop.FindSendOf` | internal/handler/cart_recovery_exec.go:71-80 | a row is skipped exactly if the query succeeds and finds a send of the campaign |
| `CartHandlers.Shop.InsertCode` | internal/handler/cart_recovery_exec.go:102-148 | a campaign with a discount stores a new unused code of this checkout or gives the checkout up |
| `CartHandlers.Shop.Deliver` | internal/handler/cart_recovery_exec.go:177-195 | an accepted mail enters the outbox, a refused one does not |
| `CartHandlers.Shop.InsertSent` | internal/handler/cart_recovery_exec.go:197-211 | the sent row is stored with campaign, checkout, code and message id, or its loss is remembered; work goes on |
| `CartHandlers.Shop.InsertFailed` | internal/handler/cart_recovery_exec.go:181-194 | the failed row is stored without a message id and the checkout given up |
| `CartHandlers.Shop.UpdateAbandoned` | internal/handler/cart_recovery_exec.go:216-228 | only a row that is still open becomes abandoned, with the campaign's id |
| `CartHandlers.Shop.UpsertCheckout` | internal/handler/webhook_checkout.go:69-74 | an existing row keeps its status, a new one gets open or ordered by topic |
| `CartHandlers.Shop.FindSendBy` | internal/handler/resend_webhook.go:119-133 | a send is found exactly if one carries this message id |
| `CartHandlers.Shop.UpdateOpened` | internal/handler/resend_webhook.go:135-150 | the send becomes opened if the update succeeds |
| `CartAttributor.CartRecoveryAttributor.TryCode` | internal/handler/cart_recovery_attributor.go:58-108 | one code: claimed at most once, for this order at its total; without failures it is used and a claimed one's checkout recovered afterwards |
| `CartAttributor.CartRecoveryAttributor.AttributeOrder` | internal/handler/cart_recovery_attributor.go:32-143 | under every interleaving and failure pattern the returned campaigns match this call's claims one for one, k matches book k times the order total, only codes the order names are touched, and without failures all of them end up used and the claimed checkouts recovered |
| `CartExecutor.CartRecoveryExecutor.ProcessCheckout` | internal/handler/cart_recovery_exec.go:99-231 | the statements of one checkout in order: code, mail, send row, status last; no error exactly if the mail was accepted, and then the row has left open and the send is on record, or exactly that write failed |
| `CartExecutor.CartRecoveryExecutor.TakeRow` | internal/handler/cart_recovery_exec.go:70-87 | one row is looked up and then worked, or skipped only if the lookup succeeds and finds a send, and the queue goes on behind it |
| `CartExecutor.CartRecoveryExecutor.ScanCampaign` | internal/handler/cart_recovery_exec.go:54-88 | a campaign whose query fails contributes no statement; otherwise one scan, and every row it fetched is looked up and, unless a send was found, worked |
| `CartExecutor.CartRecoveryExecutor.ProcessAbandonedCheckouts` | internal/handler/cart_recovery_exec.go:41-91 | the call fails exactly if the campaigns cannot be read; otherwise its statements are those of the campaigns one after the other, each as ScanCampaign says, and without failures every campaign is scanned once |
| `CartWebhooks.HandleCheckout` | internal/handler/webhook_checkout.go:43-80 | a delivery without token changes nothing; of the rows that the statement finds, one of this token gets the new address and keeps its status, and otherwise a new row is open for checkouts/create and ordered for any other topic |
| `CartWebhooks.HandleEmailEvent` | internal/handler/resend_webhook.go:90-150 | other events and events without id change nothing; otherwise a send with that message id ends up opened unless a statement fails |
| `Redis.CounterNeverRestarts` | internal/middleware/ratelimit.go:69-81 | a counter whose INCRs all come before every expiry any EXPIRE sets holds the number of its INCRs |
| `Redis.FirstMaxAreAdmitted` | internal/middleware/ratelimit.go:69-97 | exactly the first max INCRs of such a counter are answered with at most max |
| `Redis.PassesAreApart` | internal/handler/webhook.go:89-101 | two deliveries of one webhook id that both pass the gate are at least the time to live (48 hours) apart |
| `Redis.LateDeliveryPasses` | internal/handler/webhook.go:89-101 | a delivery passes once that time has gone by since every earlier one |
| `RateLimit.BucketTiles` | internal/middleware/ratelimit.go:131-137 | for any positive window bucket b is exactly the interval of one bucket length (the window cut to whole seconds, one at least) from b bucket lengths on |
| `RateLimit.LimitHoldsIff` | internal/middleware/ratelimit.go:69-97 | in all runs at most max requests of a bucket are admitted, even with EXPIRE late or never, if and only if window plus delay is at most the time to live |
| `RateLimit.RateLimitTolerance` | internal/middleware/ratelimit.go:78-81 | for any window the limit holds exactly for delays that fit between bucket and time to live, which the client sends in whole seconds: always without delay, and below one second of window only then |
| `RateLimit.RateLimitToleratesOneWindow` | internal/middleware/ratelimit.go:78-81 | for whole-second windows the limit survives INCR delays of up to one window, and no more |
| `RateLimit.IPRateLimitToleratesNone` | internal/middleware/ratelimit.go:150-171 | for whole-second windows and a time to live of one window the limit holds exactly if every INCR runs inside its own bucket |
| `RateLimit.QuotaToleratesOneDay` | internal/service/cache.go:143-172 | the daily quota, kept two days, survives delays of up to a day, and no more |
| `RateLimitClient.SlidingWindowBound` | internal/middleware/ratelimit.go:69-97 | undelayed, any interval of one window admits at most twice the limit of one client, over an arbitrary trace |
| `RateLimitClient.SlidingWindowBoundIsMet` | internal/middleware/ratelimit.go:131-137 | a trace that admits twice the limit within one window exists |
| `RateLimitClient.ClientKeysInjective` | internal/middleware/ratelimit.go:106-140 | one client's keys under a default rule differ from bucket to bucket |
| `RateLimitClient.RequestKeepsTrace` | internal/middleware/ratelimit.go:66-81 | the INCR of a request under a default rule, and its EXPIRE if that was answered with 1, keep a run of the middleware one, whatever others send between |
| `RateLimitClient.MiddlewareMakesBuckets` | internal/middleware/ratelimit.go:66-81 | in every run of the middleware under the default rules the commands on one key are a bucket as the limit's law wants it |
| `RateLimitClient.MiddlewareKeepsLimits` | internal/middleware/ratelimit.go:37-102 | so with delays of up to a minute no rule, client and bucket ever gets more than its limit |
| `RateLimitClient.LimitsInNumbers` | internal/middleware/ratelimit.go:22-102 | in numbers: the rule that a path falls under never admits more than 5, 10 or 60 requests to a bucket |
| `RateLimitClient.MiddlewareBoundsBursts` | internal/middleware/ratelimit.go:37-102 | and undelayed no client gets more than twice its limit within any minute |
| `RateLimitClient.RateLimitRequest` | internal/middleware/ratelimit.go:37-102 | other paths and paths without a rule pass untouched; a counted request is let through exactly if its own INCR was answered within the limit of the first matching rule |
| `RateLimitClient.CheckQuota` | internal/service/cache.go:143-172 | the script's INCR and first EXPIRE run as one step; allowed exactly if the count is within the limit |
| `RateLimitClient.QuotaIsExact` | internal/middleware/gateway.go:101-106 | over any run a call is allowed exactly if fewer than limit calls of that key and local date came before it, whatever the time zone, for dates and delays of up to two days together |
| `RateLimitClient.WebhookGate` | internal/handler/webhook.go:89-101 | a delivery without id passes, one with an id is a duplicate exactly if SETNX did not set its key |
| `RateLimitClient.RedisServer.DoIncr` | internal/middleware/ratelimit.go:69-70 | INCR is appended to the trace and answered by the count the trace determines |
| `RateLimitClient.RedisServer.DoSetNX` | internal/handler/webhook.go:93-93 | SETNX is appended to the trace and tells whether it set the key |
| `RateLimitKey.FindRule` | internal/middleware/ratelimit.go:52-59 | the first rule whose prefix the path has, or none |
| `RateLimitKey.FirstMatchIsLongest` | internal/middleware/ratelimit.go:22-31 | for every path under /api/ a default rule matches and the first that does has the longest prefix |
| `RateLimitKey.DefaultLimits` | internal/middleware/ratelimit.go:22-31 | in numbers: 5 contact requests per address, 10 requests to the model or to observability and 60 others per shop, all per minute |
| `RateLimitKey.KeyInjective` | internal/middleware/ratelimit.go:104-140 | under the default rules keys are equal only for the same rule, bucket, shop (if counted per shop) and address (if per address), colons in either notwithstanding |
| `RateLimitKey.KeyTexts` | internal/middleware/ratelimit.go:104-140 | the keys of the default rules in full |
| `RateLimitKey.ExtractClientIP` | internal/middleware/ratelimit.go:186-205 | the part of X-Forwarded-For before its first comma; only without that header X-Real-IP, and only without both the peer up to its last colon |
| `RateLimitKey.BuildRateLimitKey` | internal/middleware/ratelimit.go:106-140 | the key put together piece by piece is the one the laws above speak of, with the shop from context, header or query in that order |
| `Decimal.Itoa` | internal/middleware/gateway.go:145-162 | the canonical decimal text of every 64-bit integer but the smallest, which prints as a bare sign |
| `Decimal.ReadBack` | internal/middleware/gateway.go:145-162 | reading the canonical text gives the integer back |
| `Decimal.ParseInt` | internal/handler/review_analytics.go:255-264 | the number in front of the text under 64-bit wrap-around, 0 if there is none |
| `Decimal.ParseIntOfDays` | internal/handler/review_analytics.go:255-264 | a number followed by d is read as that number |
| `Utf8.ToLowerConcat` | internal/handler/storefront_chat.go:455-455 | lower-casing works rune by rune: what precedes an ASCII byte is lowered on its own, whatever bytes it has |
| `Utf8Runes.EncodedIsOneRune` | internal/handler/storefront_chat.go:455-455 | the UTF-8 encoding of any character is taken as one rune, whatever follows |
| `Utf8Runes.OneRuneIsEncoded` | internal/handler/storefront_chat.go:455-455 | and several bytes are taken as one rune only if they are such an encoding |
| `Utf8Runes.RuneIsLowered` | internal/handler/storefront_chat.go:455-455 | what each character becomes: ASCII its lower case, U+0130 and U+212A i and k, any other what the table says |
| `Utf8Runes.StrayByteIsReplaced` | internal/handler/storefront_chat.go:455-455 | a byte that begins no encoding becomes U+FFFD |
| `OrderNumber.ExtractOrderNumber` | internal/handler/storefront_chat.go:439-473 | the first positive number behind a '#', else the number that the original has behind the offset of "order" in the lower-cased message, else 0 |
| `OrderNumber.HashNumberIsFound` | internal/handler/storefront_chat.go:440-453 | the first positive number directly behind a '#' is the answer, whatever else the message holds |
| `OrderNumber.ScanReachesNumberIff` | internal/handler/storefront_chat.go:454-471 | whatever else the message holds, the scan behind the first "order" ends at the number that follows it if and only if lower-casing does not shorten what precedes the word and lengthens it by at most the marks before the number; what stands where it ends is what is answered |
| `OrderNumber.OrderNumberIff` | internal/handler/storefront_chat.go:454-471 | so in a message without number behind a '#' and without other digits, the number behind the first "order" is found if and only if lower-casing does not shorten what precedes the word and lengthens it by at most the marks before the number; a shortened head yields 0 |
| `OrderNumber.OrderNumberIsFound` | internal/handler/storefront_chat.go:454-471 | with ASCII before the word, digits there and behind the number included, the number is found |
| `OrderNumber.NothingFound` | internal/handler/storefront_chat.go:439-473 | a message without number behind a '#' and without the word, in any case, yields 0 |
| `OrderNumber.WordThenSign` | internal/handler/storefront_chat.go:454-471 | "Order # 1234", where the word begins the message and a sign follows it, gives 1234 |
| `OrderNumber.ShortenedHeadLosesTheNumber` | internal/handler/storefront_chat.go:455-466 | in "İ order 1234" the first letter loses a byte when lowered, and the code answers 0 |
| `Returns.HistoryIsGood` | internal/handler/returns.go:340-698 | every write of every run goes along the closure of the transition table, writes labels only when leaving pending or approved and refunds only when becoming refunded, with a positive amount |
| `Returns.FinalStaysFinal` | internal/handler/returns.go:25-36 | refunded, exchanged and rejected returns keep their status in every run |
| `Returns.TableIsByRank` | internal/handler/returns.go:25-36 | every move of the table but a rejection goes to a status of the next rank, and to each of them; a rejection is possible before the parcel is on its way and after inspection |
| `Returns.LifetimeBounds` | internal/handler/returns.go:25-36 | a return changes status at most six times, gets at most one label and at most one refund |
| `Returns.OneLabelOneRefund` | internal/handler/returns.go:340-605 | of any two writes of a return at most one writes a label and at most one a refund |
| `Returns.SixChangesHappen` | internal/handler/returns.go:607-663 | a run with six status changes exists |
| `Returns.ExistingLabelBranchIsDead` | internal/handler/returns.go:430-446 | no reachable pending or approved return has a label, so the branch that answers with an existing one is never taken |
| `ReturnsOverlap.AloneAsInSequence` | internal/handler/returns.go:340-698 | a handler that nobody disturbs between its read and its writes commits what the sequential model says |
| `ReturnsOverlap.AloneFindsItsStatus` | internal/handler/returns.go:340-698 | and each of its updates finds the status that the handler takes the return to be in |
| `ReturnsOverlap.OverlapIff` | internal/handler/returns.go:340-698 | however handlers of one return overlap, its history is good if and only if every update found a row to which it did no harm: a status below the one it sets or that very one, and for labels and refunds a row that may still get one or has the same |
| `ReturnsOverlap.GoodIffHarmless` | internal/handler/returns.go:340-698 | for a single update of a sound row that guard is exactly what a good write needs |
| `ReturnsOverlap.ReachesIff` | internal/handler/returns.go:25-36 | the closure of the table is the order of the ranks: a status of the table is reached exactly from those of a lower rank |
| `ReturnsOverlap.NoHarmKeepsBounds` | internal/handler/returns.go:340-698 | with harmless updates only, overlapping handlers keep the bounds on status changes, labels and refunds, and the final statuses |
| `ReturnsOverlap.OverlapKeepsHistoryGood` | internal/handler/returns.go:340-698 | in particular overlapping handlers keep all of that if every write finds the status its handler decided on |
| `ReturnsOverlap.OverlappingApprovalsDoNoHarm` | internal/handler/returns.go:340-400 | that is more than is needed: two overlapping approvals leave a good history although the second does not find the status it read |
| `ReturnsOverlap.OverlappingHandlersLeaveTheTable` | internal/handler/returns.go:571-596 | a run from creation in which a rejection falls between a refund's read and write, and the rejected return becomes refunded |
| `Returns.CalculateRefundAmount` | internal/handler/returns.go:912-929 | the computed refund is positive for every reason |
| `Returns.RefundAmounts` | internal/handler/returns.go:912-929 | the merchant's faults are refunded in full at 100, a reason that names size or fit less the shipping of 10, a change of mind less shipping and 5 in the hundred, anything else in full |
| `Returns.FaultsArePaidMost` | internal/handler/returns.go:912-929 | no reason is refunded more than a fault of the merchant's |
| `Returns.ReturnRecord.constructor` | internal/handler/returns.go:160-199 | a created return is pending, without label and refund |
| `Returns.ReturnRecord.Transition` | internal/handler/returns.go:320-338 | the walk over the allowed targets accepts exactly those of the table |
| `Returns.ReturnRecord.DoApprove` | internal/handler/returns.go:340-400 | accepted exactly from pending; the return is then label_issued with the carrier's label if one was issued and saved, and otherwise approved if that was saved; nothing else changes |
| `Returns.ReturnRecord.DoGenerateLabel` | internal/handler/returns.go:402-489 | refused exactly outside pending and approved, and an error exactly if the carrier fails; a saved label, the carrier's or the placeholder, is the one answered and makes the return label_issued; nothing else changes |
| `Returns.ReturnRecord.DoMarkReceived` | internal/handler/returns.go:491-531 | accepted exactly from customer_shipped, and then the status alone changes |
| `Returns.ReturnRecord.DoRefund` | internal/handler/returns.go:533-605 | accepted exactly from inspecting or received; pays the requested amount if it is positive and no full refund is asked for, and otherwise 100, 90 or 85 by reason; a saved row is refunded with that amount and nothing else changes |
| `Returns.ReturnRecord.DoUpdateStatus` | internal/handler/returns.go:607-663 | accepted exactly along the table; the status is set and a text appended to the note, nothing else changes |
| `Returns.ReturnRecord.DoUpdateNote` | internal/handler/returns.go:665-698 | changes nothing but the note |
| `ReviewIssues.MergeIssues` | internal/handler/review_vci_consumer.go:173-204 | the two loops with their seen map compute the duplicate-free list, newest first, cut to five |
| `ReviewIssues.IssuesOfJoin` | internal/handler/review_vci_consumer.go:176-203 | splitting and trimming gives back every list of entries that was joined with ", " |
| `ReviewIssues.CutBeforeMerge` | internal/handler/review_vci_consumer.go:189-202 | cutting the stored list before merging does not show in the first n entries, for every n |
| `ReviewIssues.TopAgreesWithHistory` | internal/handler/review_vci_consumer.go:173-204 | folded over any history from the empty string, the stored string shows exactly the first five distinct issues of the whole history, newest first |
| `ReviewIssues.MergeIsIdempotent` | internal/handler/review_vci_consumer.go:173-204 | merging the same review twice changes nothing, whatever was stored |
| `ReviewInsights.StepInv` | internal/handler/review_vci_consumer.go:134-159 | each statement of any call keeps rows unique, counters exact and successful work counted |
| `ReviewInsights.CountersAreExact` | internal/handler/review_vci_consumer.go:134-159 | under every interleaving and failure pattern each shop and product has at most one row, its three counters are the numbers of calls counted for it, negatives and discounts do not exceed the total, and a call whose insert and increment succeeded is counted |
| `ReviewInsights.NoIncrementIsLost` | internal/handler/review_vci_consumer.go:145-159 | if no statement fails the total is the number of calls past their increment |
| `ReviewLists.ListsAgreeWithHistory` | internal/handler/review_vci_consumer.go:161-170 | a stored list always has at most five distinct issues, each reported for that row, and shows the whole history's first five if no write of the row fell between a call's read and write |
| `ReviewRaces.ListsAreStored` | internal/handler/review_vci_consumer.go:161-170 | whatever interleaves and fails, every stored list is the one determined by its merges' texts and by how many writes each had read |
| `ReviewRaces.ShowsHistoryIff` | internal/handler/review_vci_consumer.go:161-170 | such a list shows the history's first five distinct issues after every merge and for all texts if and only if every merge saw the write before it |
| `ReviewRaces.SerialIsInOrder` | internal/handler/review_vci_consumer.go:161-170 | that is, exactly if no write of a row fell between another's read and write of it |
| `ReviewLists.RacingMergeLosesAnIssue` | internal/handler/review_vci_consumer.go:161-170 | without that condition an issue is lost although no statement fails and both reviews are counted |
| `ReviewLists.MergeReadsBack` | internal/handler/review_vci_consumer.go:173-204 | what a merge shows is read back from its string: new issues first, at most five, none invented |
| `ReviewConsumer.InsightTable.InsertOrSkip` | internal/handler/review_vci_consumer.go:134-143 | a row is added exactly if the statement succeeds and none has this shop and product |
| `ReviewConsumer.InsightTable.Increment` | internal/handler/review_vci_consumer.go:145-159 | the counters of the matching row go up together; without a row nothing is counted |
| `ReviewConsumer.InsightTable.ReadIssues` | internal/handler/review_vci_consumer.go:165-167 | the row and its list are remembered, or nothing will be written back |
| `ReviewConsumer.InsightTable.WriteIssues` | internal/handler/review_vci_consumer.go:168-169 | only the list of the row that was read is replaced |
| `ReviewConsumer.CountReview` | internal/handler/review_vci_consumer.go:121-159 | both counter statements are issued whatever happens to the first, and if both succeed the call is counted |
| `ReviewConsumer.TrackIssues` | internal/handler/review_vci_consumer.go:161-170 | a counted call whose statements succeed leaves its row with a list merged with its own issues |
| `ReviewConsumer.UpsertProductInsight` | internal/handler/review_vci_consumer.go:121-171 | a reply without product changes nothing; any other makes exactly these statements, and without failures is counted and leaves its issues in front of the list |
| `ReviewAttribution.OneRepurchaseEach` | internal/handler/webhook_order.go:210-229 | under every interleaving, redelivery and failure a customer and order have at most one repurchase row, naming a reply sent to that customer and its review |
| `ReviewAttribution.AmountsAreTotals` | internal/handler/webhook_order.go:219-224 | the amount of a repurchase row is the total with which a delivery of that order and customer came |
| `ReviewAttribution.RepurchaseHappens` | internal/handler/webhook_order.go:209-229 | an order of a customer who was sent a reply becomes a repurchase row with its total |
| `ReviewAttribution.MarkedRepliesAreThoseOfUsedCodes` | internal/handler/webhook_order.go:203-204 | in a run whose updates succeeded and in which no delivery stands between the two updates, the replies marked as having their discount used are exactly those with a used code |
| `ReviewAttribution.TotalsAreOfLastUses` | internal/handler/webhook_order.go:203-203 | a code is used exactly if a use of it is on record, and its total is that of the last one |
| `ReviewAttribution.CodesAreUsedOnce` | internal/handler/webhook_order.go:196-207 | in a run that is over and whose marks succeeded, every code was used at most once if and only if no delivery ever found a code that another had found and not yet marked |
| `ReviewAttribution.NoClashUsesOnce` | internal/handler/webhook_order.go:196-207 | without such a clash no code is used twice, whatever fails and whoever is still at work |
| `ReviewAttribution.OverlappingOrdersUseACodeTwice` | internal/handler/webhook_order.go:196-207 | with overlap two orders use one code and the second total replaces the first |
| `ReviewOrders.OrderTables.LatestReply` | internal/handler/webhook_order.go:211-214 | the reply to the address with the greatest sent time, or none exactly if none was sent to it |
| `ReviewOrders.OrderTables.AttributeRepurchase` | internal/handler/webhook_order.go:209-229 | the call makes the lookup of the reply with this order and total, then that of an existing row, then the insert; without failures the order has a repurchase row afterwards if a reply had been sent, and none is inserted if it had one before |
| `ReviewOrders.OrderTables.RedeemCode` | internal/handler/webhook_order.go:198-206 | a code found unused gets both updates, any other only the lookup; without failures a known code is used afterwards, and if this call found it unused its reply is marked |
| `ReviewOrders.OrderTables.AttributeReviewRecovery` | internal/handler/webhook_order.go:195-207 | exactly the RV- codes of the order are redeemed, in order, in upper case and with the order's total; without failures every known one is used afterwards and the replies of those found unused are marked |
| `ReviewOrders.ReviewCodeBeginsWithRV` | internal/handler/webhook_order.go:198-198 | the filter passes exactly the codes that begin with RV- in any case |
| `PlanCache.StalenessIsBounded` | internal/handler/storefront_chat.go:279-305 | if reads reach their stores within a delay, every answer not due to a failed query is the test of a plan the database held less than the time to live plus the delay before, for every interleaving |
| `PlanCache.AnswersFollowPlans` | internal/handler/storefront_chat.go:279-305 | an answer not due to a failed query is yes if the shop was on Growth or Pro for the last five minutes and the delay, and no if it was on neither all that time |
| `PlanCache.PlansAreAsSet` | internal/handler/storefront_chat.go:294-298 | the plan the query reads is the one last set, and empty for a shop that is not there |
| `PlanCache.StalenessIsReached` | internal/handler/storefront_chat.go:300-303 | for every delay a run whose answer is one tick short of that bound exists, so the bound is exact: the answer is yes although the shop was on no paid plan for five minutes and the delay, less one tick |
| `StorefrontChat.StorefrontChatHandler.FromCache` | internal/handler/storefront_chat.go:284-292 | a live entry answers; the call goes on to the database only if it found no entry or one that has expired, which it deletes |
| `StorefrontChat.StorefrontChatHandler.FromDatabase` | internal/handler/storefront_chat.go:294-304 | a failed query answers no and stores nothing; otherwise the plan is stored and answered |
| `StorefrontChat.StorefrontChatHandler.IsProPlan` | internal/handler/storefront_chat.go:279-305 | without database no; on a failed query no; otherwise right for a plan held within the time to live plus the delay: yes if the shop was on Growth or Pro all that time, no if on neither |
| `Config.SplitStr` | internal/config/config.go:311-326 | the loop gives the parts between the separators, for a separator of any positive length |
| `Config.JoinUndoesSplit` | internal/config/config.go:311-326 | joining the parts with the separator gives the text back |
| `Config.SplitUndoesJoin` | internal/config/config.go:311-326 | a list is read back from its join if and only if no separator begins inside any part |
| `Config.SeparatedByChar` | internal/config/config.go:311-326 | for a one-character separator that means that no part contains it |
| `Config.PartsAreSeparated` | internal/config/config.go:311-326 | no separator begins inside any part that comes out |
| `Config.EmptySeparatorNeverEnds` | internal/config/config.go:317-323 | with an empty separator any number of turns leaves the loop where it began |
| `Config.TurnsGiveParts` | internal/config/config.go:317-325 | with any other separator the turns end within the length of the text and give its parts |
| `Config.TrimSpace` | internal/config/config.go:341-351 | blanks and tabs, all of them and nothing else, are removed from both ends |
| `Config.StripPadded` | internal/config/config.go:341-351 | exactly the blanks and tabs around a text are removed |
| `Config.SplitAndTrim` | internal/config/config.go:300-309 | the stripped parts that are not empty, in order |
| `Config.OriginsAreReadBack` | internal/config/config.go:256-258 | a comma-separated list of origins is read back however it is padded |
| `Config.IndexOf` | internal/config/config.go:332-339 | the first occurrence, or -1 if there is none before the end |
| `Config.ExtractAddr` | internal/config/config.go:283-298 | scheme, then everything to the first '@', then everything from the first '/' are cut off |
| `Config.AddressIff` | internal/config/config.go:283-298 | for every redis or rediss URL, scheme in any case, with or without user, path, query and fragment, host:port comes out if and only if: with a '@' behind the scheme, what follows the first one is the host up to a '/' or the end; without, the scheme is in lower case and a path or nothing follows the host (or it is not, and the host happens to be the scheme and a colon) |
| `Config.AddressIsExtracted` | internal/config/config.go:283-298 | in terms of the parts: it comes out if a path or nothing follows the host, the user part has no '@', and without a user part there is none further back and the scheme is in lower case |
| `Config.AddressIffNoAt` | internal/config/config.go:291-293 | for a user part without '/' it comes out if and only if the user part has no '@' and a path or nothing follows the host, however the scheme is spelled |
| `Config.QueryInAddress` | internal/config/config.go:294-296 | of redis://h:6379?db=1 the query is returned with the host |
| `Config.CapitalsLoseAddress` | internal/config/config.go:286-290 | of REDIS://h:6379/0 only the scheme and its colon are returned |
| `Slug.Slugify` | internal/handler/content.go:363-380 | the loop with its dash flag computes the specified handle |
| `Slug.SlugIsJoinedWords` | internal/handler/content.go:363-380 | the handle is the lower-case words of the title joined by single dashes |
| `Slug.SlugShape` | internal/handler/content.go:363-380 | only a-z, 0-9 and single inner dashes come out |
| `Slug.HandleLetters` | internal/handler/content.go:363-380 | letters and digits of ASCII are kept, capitals and the two runes with an ASCII lower case become letters |
| `Slug.SlugFixesExactlySlugs` | internal/handler/content.go:363-380 | a text is left unchanged if and only if it has that shape |
| `Slug.SlugIsIdempotent` | internal/handler/content.go:363-380 | applying it twice changes nothing more |
| `QueryString.UnescapeUndoesEscape` | internal/handler/content.go:404-404 | form escaping of any bytes is undone by unescaping and leaves only unreserved characters, '+' and '%' |
| `QueryString.ParseUndoesEncode` | internal/handler/content_attribution.go:241-241 | any list of parameters is read back from its encoding |
| `QueryString.BadPiecesAreSkipped` | internal/handler/content_attribution.go:241-241 | empty pieces and pieces with a semicolon or a broken escape are passed over and the rest is read |
| `QueryString.HexDigits` | internal/handler/content_attribution.go:241-241 | escapes are read with digits of either case |
| `QueryString.UnreservedCharacters` | internal/handler/content.go:404-404 | letters, digits and four signs need no escape, everything else does |
| `URLSyntax.FullURL` | internal/handler/content_attribution.go:235-239 | a URL with scheme and authority is accepted if and only if its authority and the escapes of its path are |
| `URLSyntax.HostAndPort` | internal/handler/content_attribution.go:235-239 | a plain authority is in order if and only if its host has only host characters and its port only digits |
| `URLSyntax.SchemeOnly` | internal/handler/content_attribution.go:235-239 | after a scheme a path needs complete escapes, anything else is taken |
| `URLSyntax.PathOnly` | internal/handler/content_attribution.go:235-239 | a path alone is accepted if and only if its escapes are complete |
| `URLSyntax.RelativePath` | internal/handler/content_attribution.go:235-239 | a relative path needs complete escapes and no colon in its first segment |
| `ContentURL.TagsAreSorted` | internal/handler/content.go:399-404 | whatever parameters are set in whatever order, they are emitted sorted by key, each as often as it was set |
| `ContentURL.ShortIDReadsBack` | internal/handler/content_attribution.go:230-257 | for every domain name of unreserved characters, plain handle, id and content type the id read from the built URL is the trimmed id |
| `ContentURL.BaseIsAccepted` | internal/handler/content_attribution.go:235-239 | the URL parser accepts what precedes the query for every such domain and handle |
| `ContentURL.ShortIDSurvivesIff` | internal/handler/content_attribution.go:250-257 | so an id survives the trip if and only if it neither begins nor ends with white space |
| `ContentAttribution.SourceDecides` | internal/handler/content_attribution.go:241-257 | for every page the URL parser takes, with any parameters and fragment: the trimmed first utm_content if the first utm_source is vela_ai in any case, and nothing if it is any other ASCII text or missing |
| `ContentAttribution.PagesAreTaken` | internal/handler/content_attribution.go:235-239 | every product URL of a plain domain and handle is such a page, with the domain and as a path alone |
| `ContentAttribution.ControlNamesNothing` | internal/handler/content_attribution.go:235-239 | a page with a control character before its fragment names nothing |
| `ContentAttribution.BrokenFragmentNamesNothing` | internal/handler/content_attribution.go:235-239 | nor does one with an incomplete escape in its fragment |
| `ContentAttribution.BrokenPathNamesNothing` | internal/handler/content_attribution.go:235-239 | nor one with an incomplete escape in its handle |
| `ContentAttribution.TagsReadBack` | internal/handler/content.go:382-405 | a tagged URL is the product's with exactly the four parameters, desc tagged as product_desc; without a domain there is none |
| `WhiteSpace.PaddingIsTrimmed` | internal/handler/content_attribution.go:251-251 | all encoded white space around an id is trimmed and nothing else |
| `WhiteSpace.SpaceIsSeen` | internal/handler/content_attribution.go:251-251 | the encoding of every Unicode white space character is recognised at either end, and (SeenInFront, SeenAtEnd) nothing else is |
| `ContentURL.SlugIsSafe` | internal/handler/content.go:363-380 | handles made by slugify are plain in that sense |
| `Platforms.PlatformBreakdown` | internal/handler/content_analytics.go:633-665 | the loops over map and seen set compute the merged list |
| `Platforms.MergedIsFullOuterJoin` | internal/handler/content_analytics.go:633-665 | for lists with distinct platforms every platform of either is listed exactly once, no other is, with its clicks, revenue and orders |
| `Platforms.TotalsAreKept` | internal/handler/content_analytics.go:633-665 | total clicks, revenue and orders are those of the inputs |

## Left out

- OneMailPerCheckout: a mail or statement that took effect although its caller saw an error is not modelled; in the model a statement that reports failure has changed nothing. The lemma asks for successful "abandoned" updates only; sends that could not be stored, failed lookups and refused mails are allowed.
- Crashes: an executor or attributor that dies between two statements is in the model one that makes no further statement, and after a restart another actor. So all results for any number of actors cover it; those for one executor (`CartMail.OneMailPerCheckout`, `CartMail.FailedSendBlocks`, `CartRetry.RetryIff`) are for one that does not die, and `CartMail.TwoExecutorsMailTwice` is also the run of one that dies after its mail.
- UpsertProductInsight: the profile update and the columns that this function does not write (discounts_used, recovered_revenue) are not modelled.
- ProcessAbandonedCheckouts: the delay cutoff, the order and the limit of 50 of the scan are not modelled; a scan may return any list of distinct eligible rows, which includes those. The e-mail template, line items and last_executed_at are left out.
- AttributeOrder: publishing the recovered event is left out; amounts are integer cents.
- All tables are those of one shop: every query of the modelled actors is restricted to its shop. Cart campaigns come from the create handler, so they have a RECOVER- prefix; seeded campaigns have none.
- Each SQL statement and each Redis command is one atomic step. Transactions, isolation levels and the text of the statements are not modelled, nor are HTTP decoding, routing and response bodies.
- Redis is healthy: the branches that let requests through on Redis errors are left out. A key is gone from the instant its time to live is up, and the Redis client sends times to live in whole seconds, one at least. IPRateLimit divides by zero for windows below one second; its law is for whole seconds.
- HistoryIsGood: return handlers run one after the other there, because they read and then write without a guard; `ReturnsOverlap` says exactly when overlapping keeps their history good. Item lists, customer data and the carrier's address handling are left out; a carrier's answer is a parameter.
- Money in refunds, revenue and join totals is exact, not binary floating point.
- Replies: their rejection and deletion are not modelled; a reply that was sent stays sent.
- Unicode's case tables: strings.ToLower on bytes takes the table for runes outside ASCII as a parameter, except the two with an ASCII lower case; elsewhere strings.ToUpper and strings.ToLower are modelled where their result can be an ASCII letter, since other letters never match the ASCII texts they are compared with.
- OrderNumberIff: the equivalence is for messages whose only digits are the number's, since other digits may happen to repeat it; `OrderNumber.ScanReachesNumberIff`, on where the scan ends, has no such restriction.
- Redis URLs: the address is the host as the URL writes it; defaults that the client fills in for a missing host or port, and socket paths, are not modelled.
- URL parsing is net/url's, without any cap on the number of parameters; its verdict on authorities with a user, brackets, escapes or several colons is a parameter of `ContentURL.ParseContentShortID`.
- The rest of content attribution: a guard that is always true (internal/handler/content_attribution.go:62) makes it unreachable.
- The clock of the plan cache never runs backwards, and one process holds the cache.
- Redaction and uninstall deletes, billing, plan management, cron throttling, dashboards that only run SQL aggregates, prompts, keyword lists, heuristic scores, sorting by the library, and the clients of Shopify, Resend and ShipEngine are left out.
