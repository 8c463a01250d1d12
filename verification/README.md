# sms-hub core, modelled in Dafny

sms-hub is a Laravel SMS gateway. An authenticated API client submits a
message and the message is queued. A job then dispatches it through the
project's provider credentials in ascending provider priority, falling over
from one vendor adapter (Eskiz, PlayMobile) to the next until one reports
`sent`. Delivery is reconciled later in three ways: the vendor's callback,
a delivery-report job, and a polling command. Eskiz bearer tokens have
their own lifecycle: get-or-refresh, a two-day renewal window,
deactivation of superseded rows, and an expiry sweep. A small set of
client-auth rules guards the API: OAuth client validation, the bearer-token
middleware, the admin forms that create and edit OAuth clients, and a
project's IP allowlist.

The model is functional. Tables are sequences of immutable records, and
the clock is an explicit `now` in seconds. A vendor's HTTP answer is a
datatype: a status code with a decoded body, or a thrown exception with its
message. PHP values (null, booleans, integers, strings, and ordered arrays
with integer or string keys) are one datatype in `php_value.dfy`, with
`??`, `isset`, `empty` and `in_array` over it. Each operation of the core
is a pure function of its inputs. Several operations carry an explicit
"raised" outcome for a PHP error that escapes them: the delivery-report job
on an array status, client validation on a scalar grant list, the template
sync on a non-array body, the PlayMobile branch of the token refresh job.
Other `TypeError`s on malformed stored data are not raised by the model; each
is listed under "Left out" with what the model returns instead.

Modules, following the repository:

| file | models |
|---|---|
| `sms_service.dfy` | `SmsService`: failover dispatch, the adapter cache, status delegation, available providers |
| `eskiz.dfy`, `playmobile.dfy` | the two vendor adapters |
| `send_sms_job.dfy` | recording a dispatch result on the message row |
| `tokens.dfy`, `token_service.dfy` | `ProviderToken` predicates and scopes; `ProviderTokenService` |
| `refresh_job.dfy`, `refresh_command.dfy` | `RefreshProviderTokensJob`; the `eskiz:refresh-token` command |
| `delivery_callback.dfy`, `delivery_report.dfy`, `check_delivery.dfy` | the three reconciliation paths, each with its own status table |
| `process_queued.dfy` | selecting and dispatching queued messages |
| `provider.dfy`, `sorting.dfy` | provider scopes; a stable sort by priority |
| `templates.dfy`, `template_service.dfy` | `SmsTemplate` predicates; `EskizTemplateService` |
| `oauth_client.dfy`, `oauth_forms.dfy`, `client_auth.dfy`, `project.dfy` | OAuth client model and forms, client validation and bearer middleware, the IP allowlist |
| `php_value.dfy`, `php_string.dfy`, `seqs.dfy`, `wrappers.dfy`, `http.dfy`, `message_status.dfy`, `sms_result.dfy`, `messages.dfy` | shared vocabulary |

Points where the model follows the code as written rather than the behaviour a reader might expect:

- Dispatch reads each adapter's configuration from the project's
  credential rows. It never consults provider tokens.
- The delivery callback answers 400, 404 or 500 on the corresponding
  conditions. It does not always answer 200.
- The Eskiz polling table is case-sensitive, has no EXPIRED, PENDING or
  SENT entries, and defaults to `queued` rather than `unknown`.
- Exhausting all providers gives the fixed error "All configured SMS
  providers failed". It is not the last vendor's reason.
- Providers with equal priority keep their table order (a stable sort). No
  tie-break by id is stated, because the query orders by priority only.

## Model

| member | source | states |
|---|---|---|
| Tokens.TimeUntilExpiration | app/Models/ProviderToken.php:90-97 | present exactly when the token has an expiry strictly after now, and then it is that expiry |
| Tokens.Active | app/Models/ProviderToken.php:39-42 | a row is kept exactly when it is in the table and active |
| Tokens.ByType | app/Models/ProviderToken.php:47-50 | a row is kept exactly when it is in the table and its type is the one asked for |
| Tokens.NotExpired | app/Models/ProviderToken.php:55-61 | a row is kept exactly when it has no expiry or one strictly after now |
| Tokens.ValidScopeBoundary | app/Models/ProviderToken.php:66-85 | every row of the `valid` scope satisfies `isValid`; a valid row is in the scope unless it expires at exactly now, and such a row satisfies `isValid` when active yet is never in the scope |
| Tokens.ValidityOverTime | app/Models/ProviderToken.php:74-97 | a token without expiry is valid exactly when active; expiry persists and validity only goes away as time passes; a future expiry means validity is just activity |
| TokenService.NextId | app/Services/ProviderTokenService.php:106 | the id given to a new row is above every id in the table |
| TokenService.DeactivateOthers | app/Services/ProviderTokenService.php:119-122 | same rows in the same order; only `is_active` can change; the provider's other access tokens are inactive; every other row is unchanged |
| TokenService.RefreshEskizToken | app/Services/ProviderTokenService.php:59-138 | no token exactly when the email or password is empty, the login is not 2xx, or `data.token` is empty, and then the table is unchanged; otherwise a new active access row for the provider with the returned value and expiry now + 30 days, appended with an unused id |
| TokenService.RefreshSupersedes | app/Services/ProviderTokenService.php:106-122 | after a successful refresh the new row is the provider's only active access token, other providers' rows and other token types are unchanged, and no row loses any field but `is_active` |
| TokenService.RefreshTwice | app/Services/ProviderTokenService.php:106-122 | two successful refreshes leave the first new row inactive and the second as the only active access token |
| TokenService.Explain401 | app/Services/ProviderTokenService.php:80-86 | a 401 message naming wrong credentials ('Неверный Email или пароль') becomes the invalid-credentials explanation; otherwise one mentioning 'role not found' becomes the permissions explanation; any other message is kept unchanged |
| TokenService.LoginErrorMessage | app/Services/ProviderTokenService.php:76-86 | the logged message is Eskiz's message or 'Unknown error', explained as above for a 401 and kept unchanged for any other failure |
| TokenService.GetEskizToken | app/Services/ProviderTokenService.php:15-32 | nothing and no change without an eskiz provider; the current token unchanged when it is valid; otherwise exactly what a refresh gives |
| TokenService.GetEskizTokenIsValid | app/Services/ProviderTokenService.php:15-32 | a returned token is valid at now; at most one row is added, and a row is added exactly when a new token (not the current one) comes back |
| TokenService.NeedsRefresh | app/Services/ProviderTokenService.php:37-54 | false without an eskiz provider, true without a token, otherwise true exactly when the token is expired or expires strictly before now + 2 days |
| TokenService.NeedsRefreshWindow | app/Services/ProviderTokenService.php:52-53 | with a provider, renewal is needed exactly when the expiry is strictly before now + 2 days; a token without expiry never needs it |
| TokenService.NoRefreshKeepsToken | app/Services/ProviderTokenService.php:15-54 | an active token outside the renewal window is what `getEskizToken` returns, with no login and no new row |
| TokenService.GetTokensNeedingRefresh | app/Services/ProviderTokenService.php:144-157 | one eskiz entry, with the provider's id and reason 'expiring_soon_or_expired', exactly when renewal is needed; otherwise none |
| TokenService.RefreshTokensNeedingRefresh | app/Services/ProviderTokenService.php:175-205 | nothing is refreshed and the result is empty unless renewal is needed; then the table is what a refresh gives and the one result entry is 'success' exactly when a token came back |
| TokenService.RefreshAllTokens | app/Services/ProviderTokenService.php:162-170 | raises exactly when there is no eskiz provider; otherwise refreshes and reports 'success' or 'failed' under 'eskiz' |
| TokenService.CleanupExpiredTokens | app/Services/ProviderTokenService.php:210-214 | same rows, only `is_active` changes; a row stays active exactly when it was active and not expired; the count is the number of expired rows |
| TokenService.CleanupIdempotent | app/Services/ProviderTokenService.php:210-214 | a second sweep changes nothing, no expired row stays active, and a valid row is untouched |
| RefreshJob.DueTokens | app/Jobs/RefreshProviderTokensJob.php:86-94 | empty exactly when none of the provider's rows is active with no expiry or an expiry at most now + 2 days |
| RefreshJob.DueDisagreesWithNeedsRefresh | app/Jobs/RefreshProviderTokensJob.php:88-91 | for an active token, the job's test and `eskizTokenNeedsRefresh` (app/Services/ProviderTokenService.php:52-53) disagree exactly on a token without expiry and one expiring at exactly now + 2 days |
| RefreshJob.Tally | app/Jobs/RefreshProviderTokensJob.php:115-122 | the report carries the handler's status and the provider's id and name; one token is counted as refreshed when the status is 'success' and as failed otherwise |
| RefreshJob.RefreshProvider | app/Jobs/RefreshProviderTokensJob.php:75-148 | 'no_refresh_needed' and no change when no token is due; otherwise a handler report; a provider other than eskiz or playmobile is 'skipped' and counted failed; eskiz reports 'success' exactly when `getEskizToken` returns a token, valid existing ones included |
| RefreshJob.Record | app/Jobs/RefreshProviderTokensJob.php:45 | the new report is stored under the provider's name and the set of reported names gains exactly that name |
| RefreshJob.Loop | app/Jobs/RefreshProviderTokensJob.php:40-60 | every provider processed gets a report under its name, an exception included, and no other name appears |
| RefreshJob.TablesStep | app/Jobs/RefreshProviderTokensJob.php:40-45 | each provider meets the token table the previous provider's turn left, an exception's turn leaving it as it was |
| RefreshJob.LoopReports | app/Jobs/RefreshProviderTokensJob.php:40-60 | with distinct display names, the loop appends one report per provider in order: the exception's message for a provider that raised, otherwise its handler's report |
| RefreshJob.LoopTable | app/Jobs/RefreshProviderTokensJob.php:40-60 | the loop leaves the table its last turn produced, whatever the names |
| RefreshJob.LoopKeepsTable | app/Jobs/RefreshProviderTokensJob.php:40-60 | when no provider reaches the Eskiz handler with a due token, every turn meets the original table and the loop leaves it unchanged |
| RefreshJob.Handle | app/Jobs/RefreshProviderTokensJob.php:33-70 | the reported names are exactly those of the enabled providers; with distinct display names, each enabled provider gets, in order, its exception message or its handler's report for the table it met; the sweep runs once on the table the last provider left, deactivating exactly the expired rows and counting them; no expired token stays active |
| RefreshJob.LoopAsWritten | app/Jobs/RefreshProviderTokensJob.php:40-155 | when it completes it is the intended loop; it aborts only if an enabled playmobile provider is reached |
| RefreshJob.HandleAsWritten | app/Jobs/RefreshProviderTokensJob.php:33-70 | when it completes it is the intended job |
| RefreshJob.PlayMobileAborts | app/Jobs/RefreshProviderTokensJob.php:101-171 | a playmobile provider with a due token aborts the job as written before the sweep, while the intended job reports it |
| RefreshCommand.Display | app/Console/Commands/RefreshEskizToken.php:95-100 | the whole token with `--show-token`; otherwise at most its first 30 characters followed by "...", 33 characters for a longer token |
| RefreshCommand.Handle | app/Console/Commands/RefreshEskizToken.php:31-105 | FAILURE and nothing else without an eskiz provider; SUCCESS with no refresh for a valid current token without `--force`; otherwise FAILURE with no refresh and no change when ESKIZ_EMAIL or ESKIZ_PASSWORD is empty, and a refresh whenever both are set (forced, no current token, or an invalid one); after a refresh, SUCCESS exactly when a token came back and then its display is printed; the exit code is 0 or 1, and the table changes only through a successful refresh |
| RefreshCommand.ForceAgrees | app/Console/Commands/RefreshEskizToken.php:54-60 | `--force` changes nothing when the plain command would refresh anyway, and with a provider and credentials it always refreshes |
| Eskiz.Request | app/Providers/Sms/EskizProvider.php:24-29 | the posted body carries the recipient, the text, the sender and the caller's `callback_url` (null when absent) |
| Eskiz.Send | app/Providers/Sms/EskizProvider.php:18-65 | the status is always sent or failed, and sent exactly on a 2xx answer, with the body's id, its price or 0, 'UZS' and the body; a non-2xx answer fails with the body's message or 'Unknown error'; an exception fails with its message |
| Eskiz.MapStatus | app/Providers/Sms/EskizProvider.php:121-130 | case-sensitive: ACCEPTED is sent, DELIVERED delivered, FAILED and REJECTED failed, and exactly the other words are queued |
| Eskiz.CheckStatus | app/Providers/Sms/EskizProvider.php:67-99 | on 2xx the mapped status of the body's status word (default 'unknown') and the body, never unknown; otherwise unknown with an error |
| Eskiz.MissingStatusIsQueued | app/Providers/Sms/EskizProvider.php:74-79 | a 2xx status answer without a status word reads as queued |
| Eskiz.ValidateConfigApiKey | app/Providers/Sms/EskizProvider.php:116-119 | a string `api_key` passes exactly when it is neither '' nor '0' |
| PlayMobile.OutgoingMessageId | app/Providers/Sms/PlayMobileProvider.php:29 | the caller's `message_id` when set, otherwise the generated id |
| PlayMobile.Request | app/Providers/Sms/PlayMobileProvider.php:25-38 | the first message of the posted body goes to the recipient under the outgoing message id |
| PlayMobile.ReadKey | app/Providers/Sms/PlayMobileProvider.php:44 | a read outside `??` yields the stored value exactly when the container is an array holding the key; otherwise it raises |
| PlayMobile.GroupName | app/Providers/Sms/PlayMobileProvider.php:44 | when the read succeeds it is the first message's `status.group-name` |
| PlayMobile.Send | app/Providers/Sms/PlayMobileProvider.php:20-84 | the status is always sent or failed, and sent exactly on a 2xx answer whose first message's group is 'PENDING', with its 'message-id', cost 0 and 'UZS'; no first message or another group fails with the status description or 'Unknown error'; a first message whose group cannot be read fails with PHP's error text; a non-2xx answer fails with 'HTTP request failed'; an exception fails with its message |
| PlayMobile.MissingStatusRaises | app/Providers/Sms/PlayMobileProvider.php:44-83 | a 2xx answer whose first message has no status object fails with PHP's missing-key text and no provider response |
| PlayMobile.CheckStatus | app/Providers/Sms/PlayMobileProvider.php:86-94 | always unknown with the not-implemented error, whatever the id |
| SmsService.Build | app/Services/SmsService.php:124-141 | an adapter that is built holds the credential's decoded config |
| SmsService.BuildCases | app/Services/SmsService.php:124-141 | no adapter exactly when the config is empty or not an array, the provider is neither eskiz nor playmobile, or that adapter's `validateConfig` rejects the config; a built adapter matches the provider's name |
| SmsService.GetInstance | app/Services/SmsService.php:116-142 | a cache hit returns the stored adapter and leaves the cache alone; a miss builds, and caches under the credential id only an adapter that exists |
| SmsService.AdapterSend | app/Providers/Sms/EskizProvider.php:18-65 | whichever adapter answers (Eskiz here, PlayMobile in app/Providers/Sms/PlayMobileProvider.php:20-84), the result is sent or failed, a failure carries an error, and no provider is stamped yet |
| SmsService.Walk | app/Services/SmsService.php:37-81 | every attempt is of a walked credential, through the adapter call's own result |
| SmsService.WalkInOrder | app/Services/SmsService.php:23-37 | over credentials in priority order, adapters are called in non-decreasing provider priority |
| SmsService.WalkOutcome | app/Services/SmsService.php:48-81 | every attempt but the last failed; the walk is sent exactly when its last attempt was, then returning that result stamped with the provider; otherwise the 'All configured SMS providers failed' result |
| SmsService.WalkResolves | app/Services/SmsService.php:38-142 | when ids identify credential rows, each call goes through the adapter its credential resolves to against the starting cache |
| SmsService.ResolveStable | app/Services/SmsService.php:118-137 | caching one credential's adapter does not change what a credential with another id resolves to |
| SmsService.CacheStable | app/Services/SmsService.php:118-137 | caching the head's adapter leaves the usable credentials among the others as they were |
| SmsService.WalkCoverage | app/Services/SmsService.php:37-69 | the credentials called are the usable ones in order up to where the walk stopped, and all of them when it did not end sent |
| SmsService.Candidates | app/Services/SmsService.php:23-27 | exactly the active credentials, in ascending provider priority |
| SmsService.SendSms | app/Services/SmsService.php:20-82 | no candidate gives the 'No active SMS providers configured for this project' failure with no call and no cache change; every call is of an active credential, in priority order, with the adapter's own result; the result is sent or failed; all calls but the last failed; sent exactly when the last call was, with that result stamped with its provider; otherwise 'All configured SMS providers failed' |
| SmsService.SendSmsCoverage | app/Services/SmsService.php:20-142 | when ids identify rows, the calls go through the usable candidates in order, each through its resolved adapter, and a failed dispatch has called every usable candidate |
| SmsService.CheckStatus | app/Services/SmsService.php:87-111 | unknown with 'Provider not found or inactive' and the cache untouched when no active credential has the provider; unknown with 'Invalid provider configuration' when the first such credential yields no adapter; otherwise exactly the adapter's status result; cached adapters are never replaced |
| SmsService.CheckStatusRepeat | app/Services/SmsService.php:87-143 | asking again with the cache the first call left gives the same answer and leaves the cache as it was |
| SmsService.GetAvailableProviders | app/Services/SmsService.php:147-162 | a provider entry is listed exactly when some active credential yields it, one entry per active credential in row order, with the provider's id, name, capabilities and priority |
| SmsService.AvailableAreCandidates | app/Services/SmsService.php:147-162 | the list has one entry per credential a dispatch would consider, and a provider entry is listed exactly when some such candidate yields it |
| SmsService.AdapterCapabilities | app/Providers/Sms/EskizProvider.php:101-114 | Eskiz offers delivery reports and PlayMobile (app/Providers/Sms/PlayMobileProvider.php:96-109) does not, the flags otherwise agree, flash is off, and each adapter is named after its provider row |
| SendSmsJob.Record | app/Jobs/SendSmsJob.php:52-63 | status from the result; provider message id from the result or null; both error columns the same result error or null; price the result cost (0 kept) or null; currency the result's or 'USD'; provider id written only for a sent result that carries one; every other field unchanged |
| SendSmsJob.Handle | app/Jobs/SendSmsJob.php:34-70 | a missing message leaves the table unchanged; otherwise only that message's row changes, to its recorded form |
| SendSmsJob.RecordIdempotent | app/Jobs/SendSmsJob.php:52-63 | recording the same result twice is recording it once |
| SendSmsJob.HandleIdempotent | app/Jobs/SendSmsJob.php:34-70 | running the job twice with the same result is running it once |
| SendSmsJob.DispatchRecorded | app/Jobs/SendSmsJob.php:52-63 | a dispatch recorded as sent names the provider of the credential whose adapter delivered it and that adapter's message id; a failed one keeps the row's provider and writes the same non-null error to both error columns; the status is sent or failed |
| Messages.Find | app/Jobs/SendSmsJob.php:36 | the position of the row with that id, or none exactly when no row has it |
| Messages.FindByProviderMessageId | app/Http/Controllers/Api/DeliveryCallbackController.php:61 | the first row whose provider message id equals the value (null finds a row without one), or none exactly when no row has it |
| DeliveryCallback.MapEskizStatus | app/Http/Controllers/Api/DeliveryCallbackController.php:94-104 | on the upper-cased word: ACCEPTED is sent, DELIVERED delivered, FAILED, REJECTED and EXPIRED failed, and exactly every other word unknown; never queued |
| DeliveryCallback.AsStringArgument | app/Http/Controllers/Api/DeliveryCallbackController.php:71-94 | a `string` parameter rejects exactly null and arrays; a string passes as it is |
| DeliveryCallback.Handle | app/Http/Controllers/Api/DeliveryCallbackController.php:15-89 | 400 'unknown_format' without both `id` and `status`; 500 on a database exception; 404 'message_not_found' when no row has the provider message id; a status that is null or an array crashes with a TypeError the endpoint does not catch; with both fields, a found row, a usable status and no database exception the reply is 200 'success', with exactly the matched row's status (the mapped word, unknown included) and error message (the request's `error`, possibly null) rewritten; nothing changes unless the reply is 'success' |
| DeliveryCallback.MapEskizStatusIgnoresCase | app/Http/Controllers/Api/DeliveryCallbackController.php:96 | the table gives the same status for a word, its lower-case and its upper-case form |
| DeliveryCallback.CallbackAndPollingTables | app/Http/Controllers/Api/DeliveryCallbackController.php:94-104 | the callback table and the adapter's polling table (app/Providers/Sms/EskizProvider.php:121-130) agree exactly on ACCEPTED, DELIVERED, FAILED and REJECTED |
| DeliveryCallback.HandleIdempotent | app/Http/Controllers/Api/DeliveryCallbackController.php:61-78 | a successful callback repeated with the same body leaves the table as the first one did |
| DeliveryReport.MapStatus | app/Jobs/ProcessDeliveryReportJob.php:70-78 | on the lower-cased word: delivered and success are delivered, failed, error and rejected failed, sent and accepted sent, and exactly every other word queued; always a value the status column admits |
| DeliveryReport.Handle | app/Jobs/ProcessDeliveryReportJob.php:32-68 | an empty `message_id` or `status` changes nothing; no row with that provider message id changes nothing; an array status on a found row raises; otherwise the first row with that provider message id gets the mapped word as its status and nothing else changes |
| DeliveryReport.FindAlike | app/Jobs/ProcessDeliveryReportJob.php:46 | two tables with the same provider message ids, row by row, find the same row |
| DeliveryReport.HandleIdempotent | app/Jobs/ProcessDeliveryReportJob.php:32-68 | processing the same report again after a run that did not raise changes nothing more |
| DeliveryReport.MapStatusIgnoresCase | app/Jobs/ProcessDeliveryReportJob.php:72 | the table gives the same status for a word, its lower-case and its upper-case form |
| DeliveryReport.OnlyStatusChanges | app/Jobs/ProcessDeliveryReportJob.php:46-60 | no row changes any field but its status, and a row that changes is the matched one and gets a value the column admits |
| DeliveryReport.ThreeTables | app/Jobs/ProcessDeliveryReportJob.php:70-78 | on EXPIRED, delivered and success the polling table (app/Providers/Sms/EskizProvider.php:121-130), the callback table (app/Http/Controllers/Api/DeliveryCallbackController.php:94-104) and the report table give the listed, different statuses |
| CheckDelivery.CandidatesOf | app/Console/Commands/CheckSmsDeliveryStatus.php:36-39 | only rows of the table that are sent, have a provider message id and a provider, and were created within the last seven days |
| CheckDelivery.Priced | app/Console/Commands/CheckSmsDeliveryStatus.php:67-82 | only price and currency can change; `total_price` wins over `price`; the currency becomes 'UZS' exactly when either is set; with neither the row is unchanged |
| CheckDelivery.Effect | app/Console/Commands/CheckSmsDeliveryStatus.php:58-113 | an exception or an unknown answer leaves the row alone; any other answer sets the status to it, together with the price information |
| CheckDelivery.Run | app/Console/Commands/CheckSmsDeliveryStatus.php:54-114 | same number of rows; updates plus errors never exceed the rows checked |
| CheckDelivery.RunErrors | app/Console/Commands/CheckSmsDeliveryStatus.php:54-106 | the error counter is the number of polled rows (the first `budget` candidates) whose check threw |
| CheckDelivery.RunUpdates | app/Console/Commands/CheckSmsDeliveryStatus.php:54-88 | the update counter is the number of polled rows whose answer was not unknown |
| CheckDelivery.RunRows | app/Console/Commands/CheckSmsDeliveryStatus.php:36-114 | each of the first `limit` candidates gets its poll's effect, and every other row stays as it was |
| CheckDelivery.RunChecks | app/Console/Commands/CheckSmsDeliveryStatus.php:36-54 | the number of rows polled is the size of the limited candidate query |
| CheckDelivery.Handle | app/Console/Commands/CheckSmsDeliveryStatus.php:29-121 | the exit code is always 0; no candidate means no poll and no change; the rows polled are the limited candidates; the reported errors are exactly the polled rows whose check threw and the reported updates exactly those whose answer was not unknown; each selected row gets its poll's effect and every other row is unchanged |
| CheckDelivery.CandidateListed | app/Console/Commands/CheckSmsDeliveryStatus.php:36-39 | every row meeting the query's conditions is among the candidates |
| ProcessQueued.QueuedOf | app/Console/Commands/ProcessQueuedMessages.php:41 | exactly the queued rows of the table |
| ProcessQueued.Push | app/Console/Commands/ProcessQueuedMessages.php:55-67 | pushed jobs plus errors equal the messages; a job is pushed for exactly the messages whose push did not raise |
| ProcessQueued.PushJobs | app/Console/Commands/ProcessQueuedMessages.php:55-60 | the jobs are the ids of the messages whose push did not raise, one each, in the selection's order |
| ProcessQueued.PushErrors | app/Console/Commands/ProcessQueuedMessages.php:55-66 | the error counter is the number of messages whose push raised |
| ProcessQueued.Handle | app/Console/Commands/ProcessQueuedMessages.php:28-84 | the exit code is always 0; the selection is the first `limit` queued rows; none selected or a dry run pushes nothing and counts no error; otherwise the jobs are exactly the ids of the selected messages whose push did not raise, once each and in order, and the errors are the number whose push raised |
| ProcessQueued.AllQueuedWithinLimit | app/Console/Commands/ProcessQueuedMessages.php:41-60 | with a limit that covers all queued rows and no failing push, every queued message gets a job |
| Registry.Enabled | app/Models/Provider.php:46-49 | keeps every enabled provider and drops every disabled one |
| Registry.ByPriority | app/Models/Provider.php:54-57 | a permutation of the rows in non-decreasing priority |
| Registry.FirstNamed | app/Services/ProviderTokenService.php:17 | the first provider with that display name, or none exactly when no provider has it |
| Registry.FindById | app/Services/ProviderTokenService.php:181 | a provider with that id, or none exactly when no provider has it |
| Sorting.SortBy | app/Services/SmsService.php:27 | ordered by the key, a permutation of the input, and rows with equal keys keep their input order |
| Templates.AtMostOneVerdict | app/Models/SmsTemplate.php:65-84 | no template is at once approved, pending or rejected in two ways |
| Templates.ByStatus | app/Models/SmsTemplate.php:41-44 | exactly the rows with the given status |
| Templates.Approved | app/Models/SmsTemplate.php:49-52 | exactly the rows `isApproved` holds of |
| Templates.Pending | app/Models/SmsTemplate.php:57-60 | exactly the rows `isPending` holds of |
| Templates.ApprovedPendingDisjoint | app/Models/SmsTemplate.php:49-60 | no row is in both the approved and the pending scope |
| TemplateService.MapEskizStatus | app/Services/EskizTemplateService.php:162-170 | approved, pending and rejected map to themselves and everything else to pending, so the result is always one of the three |
| TemplateService.GetTemplates | app/Services/EskizTemplateService.php:17-42 | the empty list on a non-2xx answer or an exception; the entries of a 2xx array body; a raise exactly when a 2xx body is not an array |
| TemplateService.Submit | app/Services/EskizTemplateService.php:47-102 | success exactly on a 2xx answer, when the row gets the answer's id and status 'pending'; on failure the row is unchanged and the error is the body's message or 'Unknown error', or the exception's message |
| TemplateService.FindTemplate | app/Services/EskizTemplateService.php:129-131 | the first row of the provider with that vendor template id, or none exactly when no such row exists |
| TemplateService.KnownExtends | app/Services/EskizTemplateService.php:129-133 | a vendor template that has its row keeps it as rows are added |
| TemplateService.NewRow | app/Services/EskizTemplateService.php:134-141 | the provider's row under the fetched id, with the name or 'Unknown Template', the text or '', a status among the three, `approved_at` set to now exactly when the raw status is 'approved', and an unused id |
| TemplateService.CreateMissing | app/Services/EskizTemplateService.php:128-144 | existing rows are kept as they are and new rows are only appended; each new row is created for a fetched entry that raised nothing and had no row for the provider with its id before it, and is that entry's new row; without a raise the count is the number of rows added; at most one row per fetched entry |
| TemplateService.CreateCovers | app/Services/EskizTemplateService.php:128-144 | after a loop that did not raise, every fetched entry has its row |
| TemplateService.CreateNothingNew | app/Services/EskizTemplateService.php:128-144 | when every fetched entry already has its row, nothing is created and nothing raises |
| TemplateService.SyncTemplates | app/Services/EskizTemplateService.php:107-157 | failed 'Eskiz provider not found' without the provider; failed 'No valid Eskiz token found' without a valid token; success with 0 and 'No templates found' on an empty fetch; existing rows are never changed; every row created is the new row of a fetched entry whose id had no row yet; a success counts exactly the rows created, at most the number fetched |
| TemplateService.NoFetchWithoutToken | app/Services/EskizTemplateService.php:116-121 | without a valid token the answer of the template request makes no difference |
| TemplateService.SyncIdempotent | app/Services/EskizTemplateService.php:128-144 | a second sync over the same fetched list creates nothing and succeeds with 0 |
| TemplateService.SubmittedIsKnown | app/Services/EskizTemplateService.php:61-133 | a successfully submitted template is pending and found under its new vendor id, so a sync will not create it again |
| OAuthClients.SetSecret | app/Models/OAuthClient.php:37-42 | only the secret changes |
| OAuthClients.SecretRoundTrip | app/Models/OAuthClient.php:37-53 | the secret read back is exactly the value written, with no hashing |
| OAuthClients.GrantList | app/Models/OAuthClient.php:80-88 | a null grant list searches as the empty list, and an array searches its values in order |
| OAuthClients.NoGrantsNoFlags | app/Models/OAuthClient.php:80-88 | a client with null or empty grant types is neither a personal-access nor a password client |
| OAuthClients.SingleGrantFlags | app/Models/OAuthClient.php:80-88 | with a single grant string, the personal-access flag holds exactly for 'personal_access' and the password flag exactly for 'password' |
| OAuthClients.Redirect | app/Models/OAuthClient.php:90-93 | null when the redirect URIs are empty; the first URI when they form a list |
| OAuthForms.TrimmedPieces | app/Filament/Resources/OAuthClientResource/Pages/CreateOAuthClient.php:30 | one piece more than there are commas in the input; the pieces are the trimmed texts of comma-free parts whose comma-join is the input |
| OAuthForms.Kept | app/Filament/Resources/OAuthClientResource/Pages/CreateOAuthClient.php:30 | what survives `array_filter`: only non-empty strings taken from the pieces, and every non-empty piece survives |
| OAuthForms.KeptIsFilter | app/Filament/Resources/OAuthClientResource/Pages/CreateOAuthClient.php:30 | the survivors are the pieces filtered for non-emptiness, in their original order |
| OAuthForms.KeepKeys | app/Filament/Resources/OAuthClientResource/Pages/CreateOAuthClient.php:30 | `array_filter` keeps each survivor, a non-empty piece, under its original position |
| OAuthForms.KeepKeysComplete | app/Filament/Resources/OAuthClientResource/Pages/CreateOAuthClient.php:30 | every non-empty piece survives under its own position |
| OAuthForms.KeepKeysOrdered | app/Filament/Resources/OAuthClientResource/Pages/CreateOAuthClient.php:30 | the surviving positions are integer keys in strictly increasing order |
| OAuthForms.KeepKeysLookup | app/Filament/Resources/OAuthClientResource/Pages/CreateOAuthClient.php:30 | key k of the filtered array holds the piece at k when it is non-empty, and nothing otherwise |
| OAuthForms.SplitUrisAsWritten | app/Filament/Resources/OAuthClientResource/Pages/CreateOAuthClient.php:29-31 | the stored URI field is an array holding each non-empty trimmed piece under its position and nothing under any other integer key; its keys are integers in increasing order |
| OAuthForms.SplitsAgreeOnValues | app/Filament/Resources/OAuthClientResource/Pages/CreateOAuthClient.php:30 | the filtered array as written and the renumbered list hold the same URIs in the same order |
| OAuthForms.RedirectIsFirstUri | app/Filament/Resources/OAuthClientResource/Pages/CreateOAuthClient.php:29-31 | with a renumbered list, the client's redirect is its first non-empty URI, or null when there is none |
| OAuthForms.NothingUnderZero | app/Filament/Resources/OAuthClientResource/Pages/CreateOAuthClient.php:30 | pieces numbered from 1 leave nothing under key 0 |
| OAuthForms.RedirectOfKeptKeys | app/Filament/Resources/OAuthClientResource/Pages/CreateOAuthClient.php:30 | key 0 of the filtered array holds the first piece only when that piece is non-empty |
| OAuthForms.RedirectAsWritten | app/Filament/Resources/OAuthClientResource/Pages/CreateOAuthClient.php:29-31 | as written, the redirect is the first piece when it is non-empty and null otherwise, even when later URIs exist |
| OAuthForms.LeadingCommaLosesRedirect | app/Filament/Resources/OAuthClientResource/Pages/CreateOAuthClient.php:29-31 | for ",a" the URI "a" is kept, yet the client stored as written has no redirect, while the renumbered list gives "a" |
| OAuthForms.CreateLookup | app/Filament/Resources/OAuthClientResource/Pages/CreateOAuthClient.php:16-38 | after the create mutation every key reads as written by the mutation or as submitted: the grant list as given when it is an array and client credentials otherwise, the URIs split when a string was given |
| OAuthForms.SplitAndDefaultLookup | app/Filament/Resources/OAuthClientResource/Pages/CreateOAuthClient.php:28-36 | after the URI split and the grant default, a grant list that is an array is kept and anything else reads as client credentials, a URI string reads as its split, and every other key is unchanged |
| OAuthForms.FourWritesLookup | app/Filament/Resources/OAuthClientResource/Pages/CreateOAuthClient.php:19-26 | after the four unconditional writes, id, secret, owner type and provider hold the new values and every other key is unchanged |
| OAuthForms.CreateFields | app/Filament/Resources/OAuthClientResource/Pages/CreateOAuthClient.php:16-38 | the created client has the fresh id and secret, the fixed user owner type and provider, split URIs for a string, an array grant list, and every other field as submitted |
| OAuthForms.Edit | app/Filament/Resources/OAuthClientResource/Pages/EditOAuthClient.php:20-26 | the edit form always saves exactly client credentials as the grant list, and nothing else changes |
| OAuthForms.EditIdempotent | app/Filament/Resources/OAuthClientResource/Pages/EditOAuthClient.php:20-26 | saving the edit form twice is the same as saving it once |
| OAuthForms.EditIgnoresGrants | app/Filament/Resources/OAuthClientResource/Pages/EditOAuthClient.php:23 | two submissions that differ only in their grant list, or in whether they have one at all, are saved alike |
| OAuthForms.PutOverwrite | app/Filament/Resources/OAuthClientResource/Pages/EditOAuthClient.php:23 | writing a key twice keeps only the second value, whether or not the key was present |
| ClientAuth.GrantList | app/Bridge/ClientRepository.php:36-39 | a null grant list is the empty list and an array is used as it is; a scalar is JSON-decoded: a decoded array is used, a decoded null is the empty list, and any other decoded value is a raise |
| ClientAuth.ValidateClient | app/Bridge/ClientRepository.php:22-48 | a client is accepted exactly when it exists, a non-empty secret matches its stored secret strictly, and the requested grant type is among its grants; an unknown client or an empty or wrong secret is refused; a run raises only when the decoded grant list is not an array |
| ClientAuth.ClientCredentialsBranchAgrees | app/Bridge/ClientRepository.php:42-47 | the client-credentials branch answers as the general membership test would |
| ClientAuth.NoGrantsRefused | app/Bridge/ClientRepository.php:36-47 | a client with a null or empty grant list is refused for every grant type |
| ClientAuth.TokenFromHeader | app/Http/Middleware/ClientCredentialsAuth.php:60-69 | a token is found exactly when the header is present, non-empty and starts with "Bearer ", and it is the rest of the header |
| ClientAuth.FindToken | app/Http/Middleware/ClientCredentialsAuth.php:37 | finds a token row with the given id, and finds none exactly when no row has that id |
| ClientAuth.Authenticate | app/Http/Middleware/ClientCredentialsAuth.php:17-52 | no usable token gives "Unauthenticated."; "Invalid token format." exactly when a token does not have three dot-separated parts; with three parts, "Invalid token payload." exactly when the payload is empty or has no `jti`; then an unknown or revoked token id gives "Unauthenticated.", a found token expired before now gives "Token expired.", and otherwise the request passes carrying that token's client id; a request passes only under those conditions |
| ClientAuth.DotlessTokenRefused | app/Http/Middleware/ClientCredentialsAuth.php:26-29 | a non-empty bearer token without dots is refused for its format |
| Projects.ListedOnly | app/Models/Project.php:60-67 | with a non-empty allowlist, an address passes exactly when it is listed |
| Projects.EmptyAdmitsAll | app/Models/Project.php:62-64 | a missing or empty allowlist admits every address |
| Projects.GrowingKeepsAdmitted | app/Models/Project.php:60-67 | adding addresses to a non-empty allowlist never turns an admitted address away |
| Projects.GrowingFromEmptyRestricts | app/Models/Project.php:62-66 | going from an empty allowlist to one address turns away an address that was admitted before |
| Projects.OnlyTheSetMatters | app/Models/Project.php:60-67 | two allowlists with the same addresses admit the same addresses, whatever their order and repetition |

## Left out

- HTTP calls, `env()`, logging and database queries are not performed. Vendor answers, configuration values and table contents are inputs, and tables are sequences of records. Log lines are not modelled.
- Queue behaviour (`$tries`, `$timeout`, `$backoff`), scheduling and the choice between synchronous and queued refresh are runtime concerns with no stateable logic.
- `Str::uuid()`, `Str::random(40)` and `uniqid()` are inputs. The 40-character length of the generated secret and the UUID shape are not stated.
- JSON and base64 decoding (credential configuration, stored grant lists, the JWT payload) are parameters of the operations that use them.
- Floating point: prices and costs are copied values and never computed. The usage statistics (`UsageController`, `AggregateUsageJob`) are left out entirely, being SQL aggregation with float percentages and date ranges.
- Timestamps are integer seconds. Carbon parsing and ISO formatting are not modelled.
- Database type coercion: a `where` on a column compares model values for equality, and `where(col, null)` selects null columns.
- PHP's loose comparison is modelled for the types the code compares. The numeric-string rules of `==` and `in_array` are not.
- A string used as an array inside `??` or `isset` reads as null here. PHP would index the string; only the stored configuration and decoded bodies could reach this.
- PHP `TypeError`s on malformed inputs are not modelled in general (they are `\Error`, which `catch (\Exception)` does not catch).
- PlayMobile.Send: a string where the first message or its `status` object should be (a 2xx body such as `{"messages":[{"status":"ok"}]}`) makes PHP 8 throw a `TypeError` on the string offset. No `catch (\Exception)` stops it, so the dispatch aborts. The model records a failed send carrying the error's text and falls over to the next provider.
- PlayMobile.ReadKey: the string-container case yields the same `Raises` outcome as a missing key, although in PHP it is an uncaught `TypeError` and not a caught `ErrorException`.
- Projects.IsIpAllowed: a stored allowlist that is truthy but not an array (a scalar left in the column) makes `in_array` throw a `TypeError`. The model refuses every address instead.
- OAuthClients.GrantList: a grant-types column holding a scalar makes `in_array` throw a `TypeError` when the `personal_access_client` or `password_client` flag is read. The model searches the empty list, so both flags are false.
- SmsService.Build: a truthy decoded configuration that is not an array yields no adapter. PHP would raise a `TypeError` when passing it to the adapter's constructor.
- The text of PHP warnings is the PHP 8 wording. Other PHP versions word them differently.
- Laravel's `ConvertEmptyStringsToNull` middleware is not modelled: request fields arrive as given.
- `$provider->accessToken` is used by `ProviderTokenService` but no such relation exists on `Provider`. The provider's current access token is therefore an input.
- `SendSmsJob` calls `sendSms` without the project that `SmsService::sendSms` requires. The job is modelled against the dispatch result it receives, which is an input.
- `CheckSmsDeliveryStatus` calls the three-parameter `checkStatus` with two arguments, which raises as written. The command is modelled with each message's poll outcome as an input.
- RefreshJob.Loop: an exception thrown in the middle of a provider's refresh is taken to leave the token table as it was before that provider. Partial writes before the exception are not modelled.
- TokenService.LoginErrorMessage: a 401 body whose `message` is an array makes `str_contains` throw a `TypeError` that nothing catches, so the refresh aborts. The model logs the text "Array" and returns no token.
- Eskiz.CheckStatus: a 2xx body whose `status` is an array makes the `string`-typed `mapStatus` throw a `TypeError` that nothing catches. The model answers queued.
- DeliveryCallback.Handle: the `status` column of `messages` is an enum of queued, sent, delivered and failed (database/migrations/2025_08_31_135517_create_messages_table.php). Storing the mapped word 'unknown' therefore fails with a `QueryException`, which the controller turns into a 500 with no write. The model's database-failure input does not depend on the value written, so it replies 200 and stores unknown.
- RefreshCommand.Display: PHP's `substr($token_value, 0, 30)` counts bytes, while the model counts characters. The two agree for an ASCII token, which an Eskiz JWT is, and the value is only displayed.
- OAuthClients.UserId: `user_id` is a plain copy of `owner_id`. It is modelled without a contract, since any contract would only repeat the copy.
- The Filament resources, widgets, views, routes, Passport internals and annotation-only controllers are UI or framework plumbing outside the core.

## Findings

| source | as written | input that shows it | evidently intended | confidence | as-written member | corrected member |
|---|---|---|---|---|---|---|
| app/Filament/Resources/OAuthClientResource/Pages/CreateOAuthClient.php:29-31 | `array_filter` keeps the original keys, so an empty first piece leaves no entry under key 0, and `OAuthClient::redirect` (`redirect_uris[0] ?? null`) is null | `redirect_uris = ",a"` | the stored URIs renumbered from 0 (`array_values`), so the redirect is the first non-empty URI | not executed | OAuthForms.LeadingCommaLosesRedirect | OAuthForms.RedirectIsFirstUri |
| app/Jobs/RefreshProviderTokensJob.php:155 | the PlayMobile branch calls `getPlayMobileToken`, which `ProviderTokenService` does not define; the resulting `\Error` escapes `catch (\Exception)`, so the job aborts before reporting the other providers and before the expiry sweep | one enabled provider named 'playmobile' holding an active token without expiry | the PlayMobile failure is recorded for that provider and the loop and the sweep continue | not executed | RefreshJob.PlayMobileAborts | RefreshJob.Handle |
