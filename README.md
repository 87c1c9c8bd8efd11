# Microservices e-commerce: verified model of the core logic

This project models, in Dafny, the parts of the Microservices_Ecommerce
system that hold logic of their own:

- **User service.** The user service's `User` and `UserAddress` models
  (`users/models.py`). This covers the username and phone rules, the
  blocked e-mail domains, the password hashing condition of `User.save`,
  and validation before every write. It also covers the rule that a user
  keeps at most one default address per address type.
- **Order task.** The API gateway's Celery task `process_order`
  (`api_gateway/celery.py`). Each attempt looks up the user and then
  creates the order. A failure is retried with a countdown of
  `2 ** retries`, up to three retries.
- **Load monitor.** The gateway's load monitor (`api_gateway/autoscale.py`).
  Each tick appends a load sample to a module-level history. The next
  load is predicted on a scale of 1 to 10, and scale-up or scale-down
  alerts are raised once more than 20 samples are held.
- **gRPC authentication.** The gateway's gRPC `AuthInterceptor`
  (`gateway/authentication.py`). It builds a dictionary from the call
  metadata, takes the text after the last `"Bearer "` in the
  `authorization` value, and either lets the call continue or returns the
  UNAUTHENTICATED abort handler.

Modules, one per concern:

| file | module | models |
|---|---|---|
| strings.dfy | `Strings` | Python's `str.split(sep)[n]`, `split(sep)[-1]` and `in` |
| user_fields.dfy | `UserFields` | the `User` field validators and `User.clean` |
| users.dfy | `Users` | `User.save`, `check_password`, the `users` table |
| user_addresses.dfy | `UserAddresses` | `UserAddress.clean`/`save`, the `user_addresses` table |
| order_task.dfy | `OrderTask` | `process_order` with Celery's retry rule |
| autoscale.dfy | `Autoscale` | `predict_load` and `monitor_load` |
| authentication.dfy | `Authentication` | `get_user_from_token` and `AuthInterceptor` |

Where the code changes state in place, the model does too:

- `Users.User` is a class whose `Save` hashes the password field, then
  validates, then writes into a `Users.UserTable`.
- `UserAddresses.AddressTable` holds the address rows as a sequence.
  Its `Save` keeps the table invariant: unique keys, and at most one
  default per user and type.
- `Autoscale.LoadMonitor` holds `historical_data`.
- `OrderTask.ProcessOrder` runs the attempts in a loop, as Celery
  re-dispatches the task with a growing `self.request.retries`.

Each of these is proved against a pure specification function. The
specification functions carry the lemmas.

## Model

| member | source | states |
|---|---|---|
| Strings.Before | ecommerce/user_service/users/models.py:50 | the text before the first `sep`: a prefix of `s` in which `sep` does not start, followed by `sep` when `sep` occurs, and all of `s` otherwise |
| Strings.Piece | ecommerce/user_service/users/models.py:50 | `s.split(sep)[n]`: piece 0 is the text before the first `sep`; piece `n > 0` is piece `n - 1` of the text after the first `sep`, and fails (IndexError) when `sep` does not occur; a piece is never longer than `s` |
| Strings.PiecesOfJoin | ecommerce/user_service/users/models.py:50 | `(a + sep + b).split(sep)` with `a` free of `sep` has `a` as piece 0 and the pieces of `b` after it; `a.split(sep)` is `[a]` |
| Strings.LastPiece | ecommerce/api_gateway/gateway/authentication.py:24 | `s.split(sep)[-1]` is a suffix of `s`, and when `sep` occurs, `s` ends with `sep` followed by it: it is the text after the last `sep` |
| Strings.LastPieceHasNoSeparator | ecommerce/api_gateway/gateway/authentication.py:24 | the last piece of a split never contains the separator |
| Strings.ContainsChar | ecommerce/user_service/users/models.py:50 | the substring test with a one-character separator is Python's `c in s` |
| Strings.LastPieceAfterLeadingSeparator | ecommerce/api_gateway/gateway/authentication.py:24 | `(sep + t).split(sep)[-1] == t` when `t` does not contain `sep` |
| Authentication.GetUserFromToken | ecommerce/api_gateway/gateway/authentication.py:6-10 | a user is returned iff the token is `"valid_token"`, and it is user 1, `admin` |
| Authentication.ToDict | ecommerce/api_gateway/gateway/authentication.py:20 | `dict(pairs)` has exactly the keys of the metadata pairs |
| Authentication.LastPairWins | ecommerce/api_gateway/gateway/authentication.py:20 | with duplicate keys the dictionary holds the value of the last pair |
| Authentication.ExtractToken | ecommerce/api_gateway/gateway/authentication.py:24 | the token is the text after the last `"Bearer "`: the header ends with `"Bearer "` + token and the token holds no `"Bearer "`; without `"Bearer "` it is the whole header |
| Authentication.InterceptService | ecommerce/api_gateway/gateway/authentication.py:19-29 | the answer is either the one abort handler (UNAUTHENTICATED, `'Invalid token'`) or the continuation for these details; continuing needs an `authorization` key |
| Authentication.NoHeaderAborts | ecommerce/api_gateway/gateway/authentication.py:21-22 | no `authorization` pair means the abort handler |
| Authentication.AcceptedIffLastHeaderValid | ecommerce/api_gateway/gateway/authentication.py:19-29 | the call continues iff the token extracted from the last `authorization` pair is `"valid_token"`; otherwise it is aborted |
| Authentication.ClientMetadata | ecommerce/api_gateway/gateway/services.py:10-13 | an empty token sends no metadata; any other token sends the one pair `('authorization', 'Bearer ' + token)` |
| Authentication.ClientHeaderRoundTrip | ecommerce/api_gateway/gateway/services.py:10-13 | extraction from the client's header hands back exactly the token the client put in, if the token does not contain `"Bearer "` |
| Authentication.ClientCallAccepted | ecommerce/api_gateway/gateway/authentication.py:19-29 | a call carrying the client's metadata continues iff its token is the valid one; an empty token sends no header and is aborted |
| Authentication.BareTokenAccepted | ecommerce/api_gateway/gateway/authentication.py:24-27 | `valid_token` sent with no scheme is accepted |
| Authentication.BasicSchemeRejected | ecommerce/api_gateway/gateway/authentication.py:24-27 | `Basic valid_token` is rejected |
| UserFields.UsernamePattern | ecommerce/user_service/users/models.py:13-16 | `^[a-zA-Z0-9_]+$` with Python's `re.search`: a match is one or more word characters, the last of which may be a newline; every word run matches |
| UserFields.UsernameProblems | ecommerce/user_service/users/models.py:8-18 | no errors iff the length is 3 to 150 and the pattern `^[a-zA-Z0-9_]+$` matches; an empty username is reported blank |
| UserFields.UsernameRule | ecommerce/user_service/users/models.py:8-18 | without a newline: accepted iff 3 to 150 characters, all letters, digits or underscores |
| UserFields.UsernameTrailingNewlineAccepted | ecommerce/user_service/users/models.py:13-16 | because `$` matches before a final newline, a word followed by `"\n"` also passes |
| UserFields.PhoneProblems | ecommerce/user_service/users/models.py:23-30 | blank is accepted; otherwise no errors iff the pattern `^\+?1?\d{9,15}$` matches and the value fits 20 characters |
| UserFields.PhonePattern | ecommerce/user_service/users/models.py:26-29 | a value matching `^\+?1?\d{9,15}$` has 9 to 18 characters, so `max_length=20` never refuses one |
| UserFields.PhoneDigitsClosedForm | ecommerce/user_service/users/models.py:27 | `1?\d{9,15}` matches iff 9 to 15 digits, or 16 digits starting with `1` |
| UserFields.PhoneRule | ecommerce/user_service/users/models.py:23-30 | without a newline: accepted iff blank, or an optional `+` then 9 to 15 digits or 16 digits starting with `1` |
| UserFields.TextProblems | ecommerce/user_service/users/models.py:19-22 | a text column has no errors iff it is non-blank (unless `blank=True`) and fits its `max_length` |
| UserFields.ChoiceProblems | ecommerce/user_service/users/models.py:109 | a choice column has no errors iff it is non-blank, one of the choices and fits |
| UserFields.EmailDomain | ecommerce/user_service/users/models.py:50 | `email.split('@')[1]`, taken only when `@` occurs: empty without `@`, otherwise piece 1 of the split and shorter than the address |
| UserFields.DomainBetweenFirstAndSecondAt | ecommerce/user_service/users/models.py:50 | the domain is exactly the text between the first `@` and the next `@` or the end |
| UserFields.CleanEmail | ecommerce/user_service/users/models.py:44-53 | the only error is "domain not allowed"; an empty e-mail, or one without `@`, is never refused |
| UserFields.BlockedIffListedDomain | ecommerce/user_service/users/models.py:49-53 | `clean` refuses an address iff its domain is `tempmail.com` or `10minutemail.com` |
| UserFields.BlockedDomainCaseSensitive | ecommerce/user_service/users/models.py:51-52 | the comparison is exact: `tempmail.com` is refused, `TempMail.com` passes |
| Users.CheckPassword | ecommerce/user_service/users/models.py:61-63 | a raw password is accepted iff the stored value is its hash |
| Users.PasswordProblems | ecommerce/user_service/users/models.py:20 | a hash always passes; a raw value passes iff non-blank and at most 128 characters |
| Users.FullCleanErrors | ecommerce/user_service/users/models.py:8-58 | `full_clean` reports no errors iff every field rule and the domain rule hold |
| Users.HashDecision | ecommerce/user_service/users/models.py:56 | hash iff the key is falsy or `update_fields` names `password`; `update_fields=None` on a stored user raises TypeError |
| Users.Persist | ecommerce/user_service/users/models.py:59 | the row is written at its key, or at a fresh id when it has none; the next id stays above it |
| Users.SaveStep | ecommerce/user_service/users/models.py:55-59 | a save completes iff the hashing condition does not raise and the row, with its password as hashed or kept, passes `full_clean`; it then writes that row at the object's key, or at the next id when it has none; a refused or raising save leaves the table and key unchanged |
| Users.HashOnlyWhenRequired | ecommerce/user_service/users/models.py:56-57 | the password is replaced by its hash exactly on a first save or when `update_fields` names it, and left unchanged otherwise |
| Users.FirstSaveStoresHash | ecommerce/user_service/users/models.py:55-63 | a first save stores the hash, which `check_password` accepts for the raw password and no other |
| Users.PasswordUpdateStoresHash | ecommerce/user_service/users/models.py:55-63 | re-saving a stored user with `update_fields=['password']` hashes the raw password and writes the row at its own key, where `check_password` accepts it |
| Users.PlainPasswordKeptOnUpdate | ecommerce/user_service/users/models.py:56-59 | re-saving a stored user with a new raw password and no `update_fields` writes it unhashed, and `check_password` then refuses it |
| Users.NoneUpdateFieldsRaises | ecommerce/user_service/users/models.py:56 | `update_fields=None` on a stored user raises before anything is hashed, validated or written |
| Users.RetryAfterRejectionHashesTwice | ecommerce/user_service/users/models.py:56-58 | hashing comes before validation, so a second save of a refused object stores a hash of the hash |
| Users.UserTable.constructor | ecommerce/user_service/users/models.py:7 | the table starts empty |
| Users.UserTable.Write | ecommerce/user_service/users/models.py:59 | the write is `Persist`; a new row never overwrites a stored id |
| Users.User.constructor | ecommerce/user_service/users/models.py:7-32 | a new user has no key, its password as given, and is active and not verified |
| Users.User.Row | ecommerce/user_service/users/models.py:8-32 | the object's columns |
| Users.User.Save | ecommerce/user_service/users/models.py:55-59 | the object's password and key and the table end as `SaveStep` says; the other columns are untouched |
| Users.User.CheckRawPassword | ecommerce/user_service/users/models.py:61-63 | accepted iff the object's password is the hash of the raw value |
| UserAddresses.FilterDefaults | ecommerce/user_service/users/models.py:137-141 | exactly the stored defaults of that user and type |
| UserAddresses.ExcludePk | ecommerce/user_service/users/models.py:141 | drops the row with the object's key; `exclude(pk=None)` drops nothing |
| UserAddresses.CleanAddress | ecommerce/user_service/users/models.py:134-144 | refused iff the address is a default and another row with a different key is the default for the same user and type |
| UserAddresses.FieldErrors | ecommerce/user_service/users/models.py:109-115 | no field errors iff the type is a listed choice, the required columns are non-blank and every column fits |
| UserAddresses.FullCleanErrors | ecommerce/user_service/users/models.py:147 | no errors iff the fields pass and `clean` passes |
| UserAddresses.Write | ecommerce/user_service/users/models.py:148 | the new row is stored under the object's key or a fresh one; every other row is kept and nothing else is added; the next key stays above it |
| UserAddresses.SaveStep | ecommerce/user_service/users/models.py:146-148 | written iff `full_clean` passes; the row is then stored under the object's key, or a fresh one when it has none, the rows with other keys are kept and nothing else is added; refused means nothing changes |
| UserAddresses.SaveAll | ecommerce/user_service/users/models.py:146-148 | a series of saves adds at most one row per save and never removes one; the key counter never goes down |
| UserAddresses.SaveKeepsTableValid | ecommerce/user_service/users/models.py:126-148 | every save keeps keys unique and at most one default per user and type |
| UserAddresses.SavesKeepOneDefault | ecommerce/user_service/users/models.py:126-144 | after any series of saves on an empty table, each user has at most one default per type |
| UserAddresses.NonDefaultNeverRefused | ecommerce/user_service/users/models.py:136 | `clean` never refuses a non-default address |
| UserAddresses.ResaveDefaultAllowed | ecommerce/user_service/users/models.py:141 | re-saving the stored default under its own key passes `clean` |
| UserAddresses.SecondDefaultRefused | ecommerce/user_service/users/models.py:136-144 | a second default for the same user and type is refused and the table is unchanged |
| UserAddresses.AddressTable.constructor | ecommerce/user_service/users/models.py:96 | the table starts empty and valid |
| UserAddresses.AddressTable.Save | ecommerce/user_service/users/models.py:146-148 | the outcome and the new table are `SaveStep`'s, and the table invariant is kept |
| OrderTask.AttemptOutcome | ecommerce/api_gateway/api_gateway/celery.py:16-32 | an attempt succeeds iff the user is found and the order is created, and it returns the created order's id |
| OrderTask.FailureReasons | ecommerce/api_gateway/api_gateway/celery.py:17-27 | a failed attempt raises the client's exception or the `ValueError` of the step that failed |
| OrderTask.UserNotFound | ecommerce/api_gateway/api_gateway/celery.py:20 | the lookup's business error becomes a `ValueError` whose message is `"User not found: "` followed by the error |
| OrderTask.OrderCreationFailed | ecommerce/api_gateway/api_gateway/celery.py:27 | the creation's business error becomes a `ValueError` whose message is `"Order creation failed: "` followed by the error |
| OrderTask.AttemptEvents | ecommerce/api_gateway/api_gateway/celery.py:17-24 | the lookup comes first, and the order is created iff the user was found |
| OrderTask.Pow2 | ecommerce/api_gateway/api_gateway/celery.py:34 | `2 ** k` is at least 1 (the three values used are pinned by `Countdowns`) |
| OrderTask.Result | ecommerce/api_gateway/api_gateway/celery.py:10-34 | a run that returns reports status `success`; a run that raises raises the exception of the last attempt, which failed |
| OrderTask.Trace | ecommerce/api_gateway/api_gateway/celery.py:10-34 | every run from attempt `k` starts with that attempt's user lookup |
| OrderTask.RunAttempt | ecommerce/api_gateway/api_gateway/celery.py:17-32 | one pass of the task body returns or raises `AttemptOutcome` and makes the calls of `AttemptEvents` |
| OrderTask.LastAttempt | ecommerce/api_gateway/api_gateway/celery.py:29-34 | an attempt that succeeds, or fails with no retries left, ends the run: the task returns its id or raises its exception |
| OrderTask.RetryAttempt | ecommerce/api_gateway/api_gateway/celery.py:33-34 | a failed attempt with retries left is followed by a retry with countdown `2 ** retries` and the run from the next attempt, which ends as this one would |
| OrderTask.ProcessOrder | ecommerce/api_gateway/api_gateway/celery.py:10-34 | the attempt loop returns and records exactly `Result` and `Trace` from attempt 0 |
| OrderTask.RunBounds | ecommerce/api_gateway/api_gateway/celery.py:10-34 | every step belongs to attempts 0 to 3; each retry follows an attempt below 3 with countdown `2 ** retries` |
| OrderTask.RunCreatesAfterLookup | ecommerce/api_gateway/api_gateway/celery.py:17-24 | every order creation directly follows its own attempt's lookup, and that lookup found the user |
| OrderTask.RunRetriesRestartBody | ecommerce/api_gateway/api_gateway/celery.py:11-34 | every retry is directly followed by the next attempt's user lookup, and no run ends on a retry |
| OrderTask.RunAttemptsIncrease | ecommerce/api_gateway/api_gateway/celery.py:11-34 | the attempt counter never goes down along a run |
| OrderTask.RunSucceedsAtFirstGoodAttempt | ecommerce/api_gateway/api_gateway/celery.py:29-32 | the task returns iff some attempt finds the user and creates the order; it returns status `success` and the id from the first such attempt |
| OrderTask.RunFailsOnlyWhenAllAttemptsFail | ecommerce/api_gateway/api_gateway/celery.py:33-34 | the task raises only when every attempt from the first on failed |
| OrderTask.EveryEarlyFailureRetried | ecommerce/api_gateway/api_gateway/celery.py:33-34 | every failure of attempts 0 to 2, whatever its kind, is followed by a retry with countdown `2 ** retries` |
| OrderTask.Countdowns | ecommerce/api_gateway/api_gateway/celery.py:34 | the three countdowns are 1, 2 and 4 seconds |
| OrderTask.AtMostFourAttempts | ecommerce/api_gateway/api_gateway/celery.py:10 | a run makes at most four user lookups, so at most four attempts |
| Autoscale.Trunc | ecommerce/api_gateway/api_gateway/autoscale.py:23 | `int(x)` truncates toward zero |
| Autoscale.Clamp | ecommerce/api_gateway/api_gateway/autoscale.py:23 | `max(1, min(10, n))` lies in 1 to 10 and keeps values already in range |
| Autoscale.PredictLoad | ecommerce/api_gateway/api_gateway/autoscale.py:14-23 | the prediction lies in 1 to 10; with fewer than 10 samples it is the random value in 1 to 5 |
| Autoscale.ShortHistoryIgnoresSamples | ecommerce/api_gateway/api_gateway/autoscale.py:15-16 | with fewer than 10 samples, neither the samples nor the regression affect the prediction |
| Autoscale.PredictionFromEstimate | ecommerce/api_gateway/api_gateway/autoscale.py:19-23 | an estimate below 2 gives 1, at least 10 gives 10, and one in between gives its integer part |
| Autoscale.Decide | ecommerce/api_gateway/api_gateway/autoscale.py:43-46 | scale up iff prediction > 8 and more than 20 samples; scale down iff prediction < 3 and more than 20 samples; never both |
| Autoscale.AlertFromEstimate | ecommerce/api_gateway/api_gateway/autoscale.py:23-46 | with more than 20 samples: scale up iff the estimate is at least 9, and scale down iff it is below 3 |
| Autoscale.Alerts | ecommerce/api_gateway/api_gateway/autoscale.py:33-46 | one alert decision per tick (a helper; the decisions themselves are stated by `Decide`) |
| Autoscale.HistoryAfter | ecommerce/api_gateway/api_gateway/autoscale.py:37 | each tick adds one sample (a helper; `HistoryIsAppendOnly` states the content) |
| Autoscale.HistoryIsAppendOnly | ecommerce/api_gateway/api_gateway/autoscale.py:36-37 | ticks append the samples in order and keep every earlier one; nothing is evicted |
| Autoscale.NoAlertWhileHistoryShort | ecommerce/api_gateway/api_gateway/autoscale.py:43-46 | a tick that leaves at most 20 samples raises no alert |
| Autoscale.FirstTwentyTicksQuiet | ecommerce/api_gateway/api_gateway/autoscale.py:12 | from the empty history, the first 20 ticks raise no alert |
| Autoscale.LoadMonitor.constructor | ecommerce/api_gateway/api_gateway/autoscale.py:12 | the history starts empty |
| Autoscale.LoadMonitor.MonitorLoad | ecommerce/api_gateway/api_gateway/autoscale.py:33-46 | the sample is appended, the prediction is made from the history that includes it, and the alert follows `Decide` |

## Left out

- Users.FullCleanErrors: the e-mail column is checked for blankness and length only. Django's `EmailValidator` (library code) is not part of this model.
- Users.FullCleanErrors: uniqueness of `username` and `email` (`validate_unique`, a database query) is not checked.
- UserAddresses.FullCleanErrors: the check that `user` names an existing user (the foreign key) is not modelled. `user` is a plain id.
- Users.HashDecision: `update_fields` is a sequence of names. Other iterables and strings (where `in` is a substring test) are not modelled.
- Users.SaveStep: a save with `update_fields` writes the whole row. The model does not cover the partial update, the early return on an empty list, or the `ValueError` for unknown field names and for an object without a key.
- Users.Persist: new ids are handed out by a counter that stays above every stored id. The database's sequence is not modelled.
- Users.PasswordProblems: `make_password` is an uninterpreted, injective hash (`Hashed`). Salting and the algorithm are not modelled, and a hash is taken to fit the 128-character column.
- UserFields.PhoneProblems: `\d` is read as the ASCII digits `0`-`9`. Python's `\d` on `str` also matches other Unicode decimal digits.
- `UserProfile` is not part of this model: a schema with no logic.
- The `created_at` and `updated_at` timestamps (clock) are not modelled.
- Autoscale.PredictLoad: the linear regression (sklearn, numpy floating point) is an input, `estimator`, a real-valued function of the history. NaN and infinite estimates, for which `int()` raises, are not modelled.
- Autoscale.LoadMonitor.MonitorLoad: the two `random.randint` draws are inputs within their ranges. The `print` output is not produced; the alert is returned instead.
- Celery's broker, the `crontab` schedule of `setup_periodic_tasks`, and task dispatch are not modelled.
- OrderTask.ProcessOrder: the replies of the user and order services in each attempt are inputs, and so is every exception a client raises. Celery's retry machinery is replaced by the attempt loop. The retry branch taken when the task is called directly is not modelled; in that case `retry` raises at once.
- OrderTask.ProcessOrder: the items passed to the order service are not modelled. The order id is the only part of the reply used.
- Authentication.InterceptService: gRPC's handler objects and `context.abort` are represented by the `Abortion` value and the `Continuation` value; the abort handler is not run.
- `views.py`, `schema.py`, the gRPC servers and the React front end are not part of this model.
