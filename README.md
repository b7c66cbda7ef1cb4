# Health-programme backend: a verified model of its core

This project models the core of a Go backend for health programmes. Experts
publish programmes. A programme has levels, a level has activities, and an
activity has repeat days. Users enrol in programmes and take part in
activities, and accounts register and are verified by a one-time code (OTP)
sent by e-mail. The model covers these parts:

- the three closed enumerations (week day, activity type, user-activity
  status) and their text, database and JSON codecs;
- paging normalisation and the paged-window query shape;
- the Bearer-token and role gate of the authentication middleware;
- the Vietnamese phone-number recogniser;
- the upload name and path helpers;
- the OTP store in Redis and the OTP service;
- the account repository and the three account services (the current
  authentication service, the older account service and the administrator's
  user service);
- the programme, level, activity, repeat-day, programme-disease,
  programme-goal and participation repositories;
- level creation;
- the GORM `BeforeCreate`/`BeforeUpdate` hooks of the models.

How the model is built:

- **Database.** One `Store.Database` object holds every table as a `seq` of
  row values. Repositories hold it as `db`. A transaction handle is another
  `Database`, and a nil handle falls back to `db` (`Store.Handle`).
- **GORM.** The GORM operations the code relies on are written out in
  `Tables`:
  - a filtered `Where`;
  - insert with the primary-key constraint;
  - batch insert refusing an empty slice;
  - delete by key, and delete-then-create replacement;
  - count and find by key;
  - in-place update of the selected rows;
  - the `created_at DESC` window with offset `(page-1)*limit`.
- **Go structs.** Structs that the hooks or services change in place
  (`Program`, `Level`, `Activity`, `ExpertRequest`, `ScheduleCreate`,
  `Account`) are classes with `var` fields and a `Row()` value.
- **Failures.** A Go `(value, error)` pair is `Wrappers.Ret` in functions and
  two out-parameters in methods. Errors are kinds (`Wrappers.Error`), not the
  message strings. Failures of the driver, Redis or SMTP are boolean
  parameters (`fails`, `lookupFails`, ...).
- **Parameters for what the model cannot see:**
  - `uuid.New` is a `newId != Nil` parameter;
  - `time.Now` is `now`;
  - the random OTP draw is `draw`;
  - bcrypt hashing and comparison are the function parameters `bcrypt` and
    `compare`;
  - JWT verification and signing are `verify` and `generate`;
  - PostgreSQL's reading of a UUID text is `parse`, and `uuid.UUID.String` is
    `show`.

## Model

| member | source | states |
|---|---|---|
| EnumCodec.ParseCharacterization | internal/data/enum/week_day.go:48-54 | a shared codec parse succeeds exactly when the normalised text is a known name, yields that name, and otherwise gives the empty value and an invalid-value error |
| EnumCodec.ParseOfString | internal/data/enum/week_day.go:41-54 | for a well-formed codec, parsing the printed form of a known value gives the value back |
| EnumCodec.UnmarshalIgnoresDelimiters | internal/data/enum/week_day.go:86-97 | JSON decoding drops the first and last byte whatever they are and parses the rest |
| EnumCodec.UnmarshalOfMarshal | internal/data/enum/week_day.go:82-97 | decoding the JSON encoding of a known value gives it back, whatever the receiver held |
| EnumCodec.ScanOfValue | internal/data/enum/week_day.go:56-80 | for any of the enums, `Scan` of what `Value` writes succeeds exactly for a valid value and returns it |
| WeekDayEnum.ParseOfString | internal/data/enum/week_day.go:11-19 | each of the seven days parses back from its `String()` |
| WeekDayEnum.ParseFoldsCaseAndSpace | internal/data/enum/week_day.go:48-52 | `" MONDAY "` parses to `monday` |
| WeekDayEnum.ParseOfFolded | internal/data/enum/week_day.go:48-54 | a trimmed input whose lower-case form is a day parses as that day |
| WeekDayEnum.ParseFoldsDottedCapitalI | internal/data/enum/week_day.go:48-52 | the fold is Unicode's: `FRİDAY`, with the dotted capital I (U+0130), parses to `friday` |
| WeekDayEnum.ParseCharacterization | internal/data/enum/week_day.go:48-54 | parse succeeds exactly when the trimmed input, lower-cased as `strings.ToLower` lower-cases every code point whose lower case is ASCII, is a day; it returns that day, and otherwise the empty WeekDay with an error naming the normalised input |
| WeekDayEnum.StringAndValue | internal/data/enum/week_day.go:41-46 | `String` of a day is the day, of anything else `"unknown"`; `Value` equals `String` |
| WeekDayEnum.ScanNullAndOtherTypes | internal/data/enum/week_day.go:56-69 | scanning SQL NULL yields `monday`; any value other than text or bytes fails and keeps the receiver |
| WeekDayEnum.ScanOfText | internal/data/enum/week_day.go:56-76 | scanning text and bytes agree, succeed exactly when parsing does, and store the parsed day or keep the receiver |
| WeekDayEnum.ScanOfValue | internal/data/enum/week_day.go:56-80 | what `Value` writes scans back exactly for the seven days, as that day; anything else was written as `unknown`, which `Scan` refuses |
| WeekDayEnum.UnmarshalJSONShort | internal/data/enum/week_day.go:86-90 | input shorter than two bytes is an invalid-JSON error |
| WeekDayEnum.UnmarshalJSONIgnoresQuotes | internal/data/enum/week_day.go:86-92 | `xmondayx` decodes to `monday`, since the delimiters are not checked |
| WeekDayEnum.UnmarshalOfMarshal | internal/data/enum/week_day.go:82-97 | decoding the encoding of a day gives the day |
| WeekDayEnum.UnmarshalOfMarshalOutside | internal/data/enum/week_day.go:82-97 | a value outside the seven is encoded as `"unknown"`, which does not decode |
| ActivityTypeEnum.ParseOfString | internal/data/enum/activity_type.go:17-42 | `Activity`, `MiniGame` and `Challenge` parse back from their `String()` |
| ActivityTypeEnum.ParseCharacterization | internal/data/enum/activity_type.go:36-42 | parse succeeds exactly when the trimmed input (case kept) is a type, returns it, and otherwise the empty type with an error |
| ActivityTypeEnum.ParseIsCaseSensitive | internal/data/enum/activity_type.go:36-41 | `"activity"` and `"MINIGAME"` do not parse |
| ActivityTypeEnum.StringAndValue | internal/data/enum/activity_type.go:29-34 | `String` of an unknown value is `"Unknown"`; `Value` equals `String` |
| ActivityTypeEnum.ScanNullAndOtherTypes | internal/data/enum/activity_type.go:44-57 | NULL scans to `Activity`; other database types fail |
| ActivityTypeEnum.ScanOfText | internal/data/enum/activity_type.go:44-64 | text and bytes scan alike, exactly as parsing decides |
| ActivityTypeEnum.ScanOfValue | internal/data/enum/activity_type.go:44-85 | what `Value` writes scans back exactly for the three types, as that type; anything else was written as `Unknown`, which `Scan` refuses |
| ActivityTypeEnum.UnmarshalJSONShort | internal/data/enum/activity_type.go:70-74 | fewer than two bytes is an invalid-JSON error |
| ActivityTypeEnum.UnmarshalOfMarshal | internal/data/enum/activity_type.go:66-81 | decoding the encoding of a type gives the type |
| ActivityTypeEnum.UnmarshalOfMarshalOutside | internal/data/enum/activity_type.go:66-81 | an unknown value encodes as `"Unknown"`, which does not decode |
| StatusEnum.ParseOfString | internal/data/enum/status_user_activity.go:18-45 | `pending`, `complete` and `skip` parse back from their `String()` |
| StatusEnum.ParseCharacterization | internal/data/enum/status_user_activity.go:39-45 | parse succeeds exactly when the input, lower-cased as `strings.ToLower` lower-cases every code point whose lower case is ASCII, then trimmed, is a status; otherwise the empty status and an error |
| StatusEnum.ParseFoldsKelvinSign | internal/data/enum/status_user_activity.go:39-45 | `SKIP` spelt with the Kelvin sign (U+212A) parses to `skip`, as Unicode lower-cases that sign to `k` |
| StatusEnum.StringAndValue | internal/data/enum/status_user_activity.go:31-36 | `String` of an unknown value is `"Unknown"`; `Value` equals `String` |
| StatusEnum.ScanNullAndOtherTypes | internal/data/enum/status_user_activity.go:48-61 | NULL scans to `pending`; other database types fail |
| StatusEnum.ScanOfText | internal/data/enum/status_user_activity.go:48-68 | text and bytes scan alike, exactly as parsing decides |
| StatusEnum.UnmarshalJSONShort | internal/data/enum/status_user_activity.go:76-80 | fewer than two bytes is an invalid-JSON error |
| StatusEnum.UnmarshalOfMarshal | internal/data/enum/status_user_activity.go:71-87 | decoding the encoding of a status gives the status |
| Text.LowerTrimCommute | internal/data/enum/status_user_activity.go:40 | lower-casing and trimming commute, so trimming first (week day) or lower-casing first (status) gives the same text |
| Paging.Paging.ProcessPaging | common/paging.go:9-17 | afterwards page and limit are at least 1; page < 1 becomes 1 and limit < 1 becomes 10; positive values and the total are kept; a processed paging is unchanged |
| Paging.ProcessedLimit | common/paging.go:14-16 | the normalised limit is at least 1, is the limit itself when positive, and is otherwise 10 |
| Paging.ProcessPagingIdempotent | common/paging.go:9-17 | normalising twice is normalising once |
| Paging.OffsetLimit | internal/data/repositories/account_repository.go:96-100 | the window has at most `limit` rows, and row i of it is row offset+i of the input |
| Paging.WindowsTile | internal/data/repositories/account_repository.go:96-100 | with a positive limit, every row whose index fits in Go's `int` appears on page `i / limit + 1` at position `i % limit` |
| Paging.WindowPastEnd | internal/data/repositories/account_repository.go:96-100 | a page whose offset `(page-1)*limit` is past the end and fits in Go's `int` is empty |
| Paging.WrapInt64 | internal/data/repositories/account_repository.go:98 | the offset is computed in Go's 64-bit `int`: the result lies in its range, differs from the true product by a multiple of 2^64, and is the product itself when that fits |
| Paging.WrappedOffsetIsFirstPage | internal/data/repositories/account_repository.go:96-100 | a page whose offset wraps to zero or below is queried without OFFSET and so holds the first page's rows |
| Paging.OffsetWraps | internal/data/repositories/account_repository.go:98 | such pages exist past page 1: page 3 in pages of 2^62 rows has the offset -2^63 |
| AuthMiddleware.Gate | internal/middleware/auth_middleware.go:11-53 | a request passes exactly when the header has the `Bearer ` form and its token verifies (and its role is allowed), and then carries those claims |
| AuthMiddleware.EmptyHeaderRejected | internal/middleware/auth_middleware.go:14-18 | an empty header is a 401 and is aborted |
| AuthMiddleware.NotBearerNotAborted | internal/middleware/auth_middleware.go:20-23 | a non-empty header without the `Bearer ` prefix is a 401 that is not aborted |
| AuthMiddleware.LowerCaseSchemeRefused | internal/middleware/auth_middleware.go:20 | the prefix match is case-sensitive: `bearer x` is refused |
| AuthMiddleware.TokenOf | internal/middleware/auth_middleware.go:25 | the verified token is the header with the seven-character prefix removed |
| AuthMiddleware.InvalidTokenRejected | internal/middleware/auth_middleware.go:26-31 | a token that does not verify is a 401, aborted, before any role check |
| AuthMiddleware.NoRolesEveryTokenPasses | internal/middleware/auth_middleware.go:34-42 | with no required roles every verified token passes |
| AuthMiddleware.RoleGate | internal/middleware/auth_middleware.go:34-47 | with required roles, the request passes iff the claims' role is one of them, and is otherwise a 403, aborted |
| AuthMiddleware.RoleIsValid | internal/middleware/auth_middleware.go:34-40 | the loop's flag is true iff the role is among the required ones |
| AuthMiddleware.JWTAuthMiddleware | internal/middleware/auth_middleware.go:11-53 | the context ends as the gate decides: on a pass it holds exactly the user id and role; on a rejection it has the status and the abort flag of that branch |
| AuthMiddleware.GateCorrectedAgrees | internal/middleware/auth_middleware.go:20-23 | the corrected gate passes the same requests with the same claims, and differs only in aborting every rejection |
| PhoneValidator.RecogniserMatchesLanguage | utils/phone_validator.go:8 | the recogniser accepts exactly one or more prefix-and-class groups followed by exactly eight digits |
| PhoneValidator.AcceptsNational | utils/phone_validator.go:8 | `0912345678` is accepted |
| PhoneValidator.AcceptsCountryCode | utils/phone_validator.go:8 | `+84912345678` and `84912345678` are accepted |
| PhoneValidator.RefusesSecondDigitTwo | utils/phone_validator.go:8 | `0212345678` is refused |
| PhoneValidator.AcceptsRepeatedGroup | utils/phone_validator.go:8 | the group may repeat: `090912345678` is accepted |
| PhoneValidator.AcceptsBar | utils/phone_validator.go:8 | the bracket class also admits a literal bar character, so `0`, a bar, then `12345678` is accepted |
| PhoneValidator.RefusesEmptyShortAndTrailing | utils/phone_validator.go:8 | the empty string, seven trailing digits and a trailing letter are refused |
| Image.CheckUpload | utils/image.go:31-39 | an upload passes iff its size is at most 10 MiB and its lower-cased extension is `.jpg`, `.jpeg` or `.png`; it then yields that extension, and otherwise the size or the extension error |
| Image.SizeLimitInclusive | utils/image.go:31-33 | exactly `10<<20` bytes is allowed, one byte more is too large |
| Image.GenerateFileNameUpload | utils/image.go:86-90 | the name is the file name without the extension suffix, `_`, the timestamp and the extension, so it always ends with the extension |
| Image.UpperCaseExtensionKept | utils/image.go:35-42 | `A.JPG` is accepted as `.jpg` and stored as `A.JPG_<ts>.jpg` |
| Image.GenerateAvatarURL | utils/image.go:92-94 | the URL starts with the request's host, and for a plain file name its last path element is that name, so the URL names the stored file |
| Image.AvatarFilePathShape | utils/image.go:103-108 | the avatar path is `<uploadDir>/avatar` (cleaned) followed by the last segment of the argument |
| Image.AvatarPathOfURL | utils/image.go:92-108 | for a plain name f, the path of the URL of f is the path of f |
| Image.HandleFileUpload | utils/image.go:25-56 | an upload succeeds iff a file is present, passes the checks, and the directory and the save succeed; it then returns the avatar URL of the generated name |
| Image.HandleFileDeleted | utils/image.go:58-84 | an empty name touches nothing; any other name resolves to its avatar path |
| Image.DeleteFindsUpload | utils/image.go:25-108 | deleting the URL a successful upload returned targets the path the upload saved to |
| GoPath.CleanIdempotent | utils/image.go:103-108 | the path cleaning used by `filepath.Join` is idempotent |
| GoPath.JoinDirectory | utils/image.go:103-108 | joining a directory with a plain name gives a clean path that is neither `/` nor `.` |
| GoPath.BaseAfterSlash | utils/image.go:104 | `path.Base` of `dir/name` is `name` for a plain name |
| Redis.OtpKeyInjective | internal/data/repositories/redis.go:52-58 | store and verify use the key `otp:` + e-mail, and distinct e-mails have distinct keys |
| Redis.RedisStore.StoreOTP | internal/data/repositories/redis.go:52-55 | a store either fails and changes nothing, or sets that key to the code and keeps every other key |
| Redis.RedisStore.VerifyOTP | internal/data/repositories/redis.go:57-70 | verification is true iff the stored code equals the given one; a missing key is false with no error; only a store failure is an error; nothing is removed |
| Redis.StoreThenVerify | internal/data/repositories/redis.go:52-69 | after storing o, exactly o verifies |
| Redis.StoreKeepsOthers | internal/data/repositories/redis.go:52-55 | storing for one e-mail leaves every other e-mail's verification unchanged |
| Redis.StoreOverwrites | internal/data/repositories/redis.go:54 | a second store overwrites the first |
| Redis.MissingKeyNeverMatches | internal/data/repositories/redis.go:59-63 | with no key, nothing verifies |
| SendOtpService.GenerateOTP | internal/services/send_otp_service.go:44-46 | the code is six decimal digits |
| SendOtpService.GeneratedCodeValue | internal/services/send_otp_service.go:45 | the code's numeric value is the draw, zero-padded |
| SendOtpService.GenerateOTPInjective | internal/services/send_otp_service.go:44-46 | distinct draws give distinct codes |
| SendOtpService.Mailer.SendOTP | internal/services/send_otp_service.go:48-63 | a send either fails and mails nothing, or appends one mail to that address with that code |
| SendOtpService.SendOTPService.SendOTPAndStore | internal/services/send_otp_service.go:65-76 | the code is stored before sending; a store failure mails nothing; a send failure leaves the code stored; both succeeding store and mail the same code |
| SendOtpService.SendOTPService.VerifyOTPInRedis | internal/services/send_otp_service.go:78-87 | true with no error iff the code matches; a wrong or missing code, or a store failure, is false with an error |
| Tables.InsertRowSpec | internal/data/repositories/level_repository.go:24-32 | an insert succeeds iff the driver does and the key is new; it then appends exactly the row and keeps keys unique, and otherwise changes nothing |
| Tables.InsertBatch | internal/data/repositories/program_disease_repository.go:25-31 | a batch insert succeeds iff the driver does and the batch is non-empty, and then appends every row |
| Tables.DeleteKey | internal/data/repositories/program_disease_repository.go:33-43 | a delete removes exactly the rows under the key |
| Tables.ReplaceKeySpec | internal/data/repositories/program_disease_repository.go:45-67 | after a successful replace the rows under the key are exactly the batch and other keys are untouched; a failed delete creates nothing |
| Tables.ReplaceKeyTwice | internal/data/repositories/program_disease_repository.go:56-65 | replacing twice with the same batch is replacing once |
| Tables.CountKey | internal/data/repositories/user_program_repository.go:25-34 | a count is the number of rows under the key, or 0 and an error |
| Tables.LookupKey | internal/data/repositories/level_repository.go:34-48 | a lookup is the row under the key, or none and no error, or an error |
| Tables.ListDescSpec | internal/data/repositories/account_repository.go:88-104 | the paged list holds only matching rows, at most `limit` of them, in `created_at` descending order |
| Tables.ListDescTiles | internal/data/repositories/account_repository.go:88-104 | in the sorted order, every matching row whose index fits in Go's `int` appears on exactly the page its position puts it on |
| Tables.SortDesc | internal/data/repositories/account_repository.go:96-100 | the sort is in `created_at` descending order, unset times first as PostgreSQL orders NULLs under DESC, and a permutation of its input |
| Tables.SortedDescUnique | internal/data/repositories/account_repository.go:97 | two `created_at DESC` orders of the same rows are equal when no two rows share a time, so the sorted order is then the only one PostgreSQL can return |
| Tables.ListDescDetermined | internal/data/repositories/account_repository.go:96-100 | when no two matching rows share a time, every page PostgreSQL can return is the model's page |
| Tables.UpdateWhereOthers | internal/data/repositories/program_repository.go:105-113 | an update by key leaves the rows under every other key unchanged |
| Tables.UpdateWhereCount | internal/data/repositories/program_repository.go:105-113 | an update by key keeps the number of rows under every key |
| Store.Handle | internal/data/repositories/program_repository.go:40-43 | a nil transaction uses the repository's database, any other handle is used as given |
| Models.AssignIfNil | internal/data/models/program.go:26-28 | a nil id becomes the fresh id, and a set id is kept |
| Models.StampIfUnset | internal/data/models/program.go:30-38 | an unset time becomes now, and a set time is kept |
| Models.ProgramCreatedFields | internal/data/models/program.go:25-42 | `BeforeCreate` sets a nil id and unset times only, and changes no other field |
| Models.ProgramCreatedIdempotent | internal/data/models/program.go:25-42 | a second `BeforeCreate` changes nothing |
| Models.ProgramUpdatedFields | internal/data/models/program.go:44-49 | `BeforeUpdate` sets `UpdatedAt` to now, changes nothing else, and the later call wins |
| Models.ProgramStored | internal/data/models/program.go:15 | the stored row is active, because the `is_active` default replaces a false, and is otherwise the row |
| Models.Program.BeforeCreate | internal/data/models/program.go:25-42 | the struct becomes the `BeforeCreate` row |
| Models.Program.BeforeUpdate | internal/data/models/program.go:44-49 | the struct becomes the `BeforeUpdate` row |
| Models.LevelCreatedFields | internal/data/models/level.go:26-42 | `BeforeCreate` sets a nil level id and unset times only |
| Models.LevelCreatedIdempotent | internal/data/models/level.go:26-42 | a second `BeforeCreate` changes nothing |
| Models.Level.BeforeCreate | internal/data/models/level.go:26-42 | the struct becomes the `BeforeCreate` row |
| Models.ActivityCreatedFields | internal/data/models/activity.go:27-43 | `BeforeCreate` sets a nil activity id and unset times only |
| Models.ActivityCreatedIdempotent | internal/data/models/activity.go:27-43 | a second `BeforeCreate` changes nothing |
| Models.ActivityStored | internal/data/models/activity.go:18 | the stored `type` is the default `Activity` for an empty type, the type itself for one of the three names, and `Unknown` for any other, since GORM writes it through `ActivityType.Value` |
| Models.ActivityDefaulted | internal/data/models/activity.go:18 | after the create, the struct holds the default `Activity` in place of an empty type and keeps any other type as it was |
| Models.Activity.BeforeCreate | internal/data/models/activity.go:27-43 | the struct becomes the `BeforeCreate` row |
| Models.ExpertCreatedFields | internal/data/models/expert.go:33-42 | `BeforeCreate` assigns the expert id and the account id independently, each only when nil, and changes nothing else |
| Models.ExpertCreatedIdempotent | internal/data/models/expert.go:33-42 | a second `BeforeCreate` changes nothing |
| Models.ExpertRequest.BeforeCreate | internal/data/models/expert.go:33-42 | the struct becomes the `BeforeCreate` row |
| Models.ScheduleCreatedFields | internal/models/schedule.go:28-36 | `BeforeCreate` sets a nil schedule id, clamps a negative repeat interval to 0 (so it is never negative afterwards) and keeps every other field |
| Models.ScheduleCreatedIdempotent | internal/models/schedule.go:28-36 | a second `BeforeCreate` changes nothing |
| Models.ScheduleCreate.BeforeCreate | internal/models/schedule.go:28-36 | the struct becomes the `BeforeCreate` row |
| Models.AccountCreatedFields | internal/models/account.go:24-29 | `BeforeCreate` sets a nil account id only, and a second call changes nothing |
| Models.AccountStored | internal/models/account.go:14-17 | the stored account is active and has a creation time; an empty role becomes `user`; the other fields are as given |
| Models.Account.BeforeCreate | internal/models/account.go:24-29 | the struct becomes the `BeforeCreate` row |
| Models.RepeatDayStored | internal/data/models/activity_repeat_day.go:12 | the stored `repeat_day` is `monday` for an empty day, the day itself for one of the seven names, and `unknown` for any other, since GORM writes it through `WeekDay.Value` |
| AccountRepository.AssignSpec | internal/data/repositories/account_repository.go:44-50 | an update writes only its column and keeps id and e-mail; writes to one column overwrite each other, writes to different columns commute |
| AccountRepository.UpdateAccountsSpec | internal/data/repositories/account_repository.go:44-50 | an account update succeeds iff the driver does and the id text reads as a UUID; it writes exactly the selected rows, in place; it keeps ids and e-mails unique; a failure changes nothing |
| AccountRepository.UpdateByIdWrites | internal/data/repositories/account_repository.go:44-50 | after an update by a readable id, every row under that id carries the written value |
| AccountRepository.InsertAccountSpec | internal/data/repositories/account_repository.go:34-42 | an account insert succeeds iff the driver does and both id and e-mail are new; it appends the row, which both keys then find |
| AccountRepository.LookupById | internal/data/repositories/account_repository.go:68-82 | a lookup by id text fails iff the driver does or the text is no UUID; it finds a row with that id, or none when no row has it |
| AccountRepository.AccountRepository.Create | internal/data/repositories/account_repository.go:34-42 | the struct gets its hook and defaults applied, and the table becomes the insert's result |
| AccountRepository.AccountRepository.Update | internal/data/repositories/account_repository.go:44-50 | the table becomes the update's result, with the driver's error |
| AccountRepository.AccountRepository.GetByEmail | internal/data/repositories/account_repository.go:52-66 | the row with that e-mail, or none and no error when no row has it, or an error |
| AccountRepository.AccountRepository.GetAccountById | internal/data/repositories/account_repository.go:68-82 | the id lookup's row and error; an unknown id gives none and no error |
| AccountRepository.AccountRepository.GetAccounts | internal/data/repositories/account_repository.go:88-104 | the total is the count of all matching rows, independent of the window; the result is the descending window of those rows; each failure gives an empty list and an error |
| AccountRepository.AccountRepository.DeactivateAccount | internal/data/repositories/account_repository.go:106-113 | the transaction's table becomes the by-id update setting `account_status = false` |
| AuthService.LoginSucceedsIff | internal/services/auth_service.go:102-131 | tokens are issued exactly to a found, verified, unlocked account whose hash matches and whose tokens are signed, and are that account's tokens |
| AuthService.LoginCheckOrder | internal/services/auth_service.go:108-125 | the checks run in a fixed order: lookup error, missing account, not verified, locked, wrong password |
| AuthService.EmptyHashLocksOut | internal/services/auth_service.go:116-125 | an account stored with an empty hash (see `HashPasswordAsWritten`) can never log in |
| AuthService.AuthService.RegisterAccount | internal/services/auth_service.go:46-78 | a known e-mail or a lookup error writes nothing, and so does a hash failure of the corrected helper; otherwise the hash replaces the password, the account is inserted, and only after a successful insert is a code stored and mailed; with the helper as shipped, a password bcrypt refuses is registered with the empty hash and the code is still mailed |
| AuthService.AuthService.VerifyOTP | internal/services/auth_service.go:80-100 | a failed code check updates nothing; a match sets `is_verified` for that e-mail only when the caller says it is not yet verified |
| AuthService.AuthService.Login | internal/services/auth_service.go:102-131 | the result is the login decision on the e-mail lookup, with the lock check |
| AuthService.AuthService.ForgotPassowrd | internal/services/auth_service.go:133-152 | an unknown e-mail or a lookup error sends nothing; otherwise a code is stored and mailed |
| AuthService.AuthService.ResetPassword | internal/services/auth_service.go:154-181 | an unknown e-mail writes nothing; otherwise only the password hash of rows with that e-mail changes, to the new hash, which with the helper as shipped is empty for a password bcrypt refuses |
| AuthService.AuthService.ChangePassword | internal/services/auth_service.go:183-215 | an unknown id or a non-matching old password writes nothing; otherwise only the hash of that id's row changes, and with the helper as shipped a refused new password stores the empty hash |
| AccountService.LoginIgnoresLock | internal/services/account_service.go:97-122 | the older login decides like the current one, except that a verified locked account goes on to the password check instead of being refused |
| AccountService.AccountService.RegisterAccount | internal/services/account_service.go:41-73 | as the current registration: a duplicate writes nothing, the hash replaces the password, the code is sent after the insert; with the helper as shipped a refused password is registered with the empty hash |
| AccountService.AccountService.VerifyOTP | internal/services/account_service.go:75-95 | `is_verified` is set only on a valid code when the caller says the account is not verified |
| AccountService.AccountService.Login | internal/services/account_service.go:97-122 | the result is the login decision without the lock check |
| AccountService.AccountService.ForgotPassowrd | internal/services/account_service.go:124-143 | false and an error for an unknown e-mail; true only after the code is stored and mailed |
| UserService.CreatedAccountFields | internal/services/user_service.go:47-55 | a created account has the fresh id, the e-mail, the hash, the given role (or `user`), and is verified and active |
| UserService.UserService.CreateAccount | internal/services/user_service.go:29-60 | an existing e-mail or a lookup error creates nothing, and so does a hash failure of the corrected helper; otherwise the built account is inserted and returned, or nil on an insert error; with the helper as shipped a refused password creates the account with the empty hash |
| UserService.UpdateByShownIdIsByEmail | internal/services/user_service.go:62-87 | when ids read back and ids and e-mails are unique, updating by the found account's id text is updating by its e-mail |
| UserService.UserService.ResetPassword | internal/services/user_service.go:62-87 | an unknown e-mail writes nothing; otherwise the hash is written by the found account's id, and every row with that id then has the new hash, empty with the helper as shipped when bcrypt refuses the password |
| UserService.UserService.GetAllAccounts | internal/services/user_service.go:89-102 | paging is normalised before the query; the list is the descending window of matching accounts, at most `limit` long; the total is the match count |
| UserService.UserService.GetAccountById | internal/services/user_service.go:104-115 | a missing account becomes an error; a found one is the row with that id |
| UserService.UserService.LockAccount | internal/services/user_service.go:117-135 | an unknown id writes nothing; otherwise that id's rows get `account_status = false` and nothing else changes |
| UserService.UserService.UnlockAccount | internal/services/user_service.go:137-156 | an unknown id writes nothing; otherwise that id's rows get `account_status = true` |
| UserService.StatusLastWriteWins | internal/services/user_service.go:126-155 | lock then unlock is unlock, and each is idempotent: the later status write wins and the selected rows carry it |
| ProgramRepository.FindActiveSpec | internal/data/repositories/program_repository.go:53-62 | the active lookup finds an active row with that id, and none exactly when no such row is active |
| ProgramRepository.PatchProgramSpec | internal/data/repositories/program_repository.go:105-113 | a struct update writes only the non-zero fields and keeps the id |
| ProgramRepository.UpdateProgramSpec | internal/data/repositories/program_repository.go:105-113 | an update changes only the row under `cond` and keeps keys unique |
| ProgramRepository.ProgramRepository.InsertProgram | internal/data/repositories/program_repository.go:39-51 | the struct gets its hook and default; the handle's table becomes the insert's result (one row more on success) |
| ProgramRepository.ProgramRepository.FindProgramByID | internal/data/repositories/program_repository.go:53-62 | a program is returned only if one with that id exists and is active; otherwise the result is an error |
| ProgramRepository.ProgramRepository.FindProgramsByExpertID | internal/data/repositories/program_repository.go:64-85 | the total counts matching rows; the result is their descending window, at most `limit` long |
| ProgramRepository.ProgramRepository.UpdateProgramByID | internal/data/repositories/program_repository.go:105-113 | the struct gets `UpdatedAt`; the table becomes the update of the row under `cond` |
| ProgramRepository.ProgramRepository.DeleteProgramByID | internal/data/repositories/program_repository.go:94-103 | the handle's table loses exactly the rows under that id |
| ProgramRepository.ProgramRepository.DeactiveProgram | internal/data/repositories/program_repository.go:87-92 | as written: always an error, and the table is unchanged |
| ProgramRepository.DeactiveProgramKeepsProgramVisible | internal/data/repositories/program_repository.go:87-92 | as written, the deactivation fails and `FindProgramByID` still finds the program |
| ProgramRepository.DeactivateProgramHides | internal/data/repositories/program_repository.go:87-92 | the intended deactivation succeeds, hides the program from `FindProgramByID`, keeps its rows and leaves other programs alone |
| ProgramRepository.ProgramRepository.DeactiveProgramCorrected | internal/data/repositories/program_repository.go:87-92 | the table becomes the intended deactivation |
| LevelRepository.LevelRepository.InsertLevel | internal/data/repositories/level_repository.go:24-32 | the struct gets its hook and default; the handle's table becomes the insert's result |
| LevelRepository.InsertedLevelIsFound | internal/data/repositories/level_repository.go:24-48 | after an insert, the lookup by that id finds the inserted level |
| LevelRepository.LevelRepository.FindLevelByID | internal/data/repositories/level_repository.go:34-48 | the level under that id whatever its `is_active`, or none and no error, or an error |
| ActivityRepository.ActivityRepository.InsertActivity | internal/data/repositories/activity_repository.go:41-53 | the struct gets its hook and the default type; the handle's table becomes the insert of the stored row, whose type went through `Value` |
| ActivityRepository.ActivityRepository.FindActivities | internal/data/repositories/activity_repository.go:55-75 | the total counts matching rows; the result is the window of them at offset `(page-1)*limit`, at most `limit` long, read through `Scan`, or no rows and Scan's error when a row's type cannot be read |
| ActivityRepository.ActivityRepository.FindActivityByID | internal/data/repositories/activity_repository.go:77-92 | the activity under that id with a type among the three names, none and no error when there is none, or none and Scan's error when its stored type is not a name |
| ActivityRepository.ReadActivity | internal/data/enum/activity_type.go:44-64 | a stored row reads back exactly when its trimmed type is one of the three names, and then with that name; otherwise the read fails with the invalid-value error |
| Tables.ReadAllSpec | internal/data/repositories/activity_repository.go:70-74 | `Find` succeeds exactly when every fetched row reads back, and then returns each row as read; otherwise no rows and the error of a row that failed |
| ActivityRepository.StoredActivityReadsBack | internal/data/repositories/activity_repository.go:41-53 | an inserted activity can be read back exactly when its type was empty or one of the names, and then reads back as stored |
| ActivityRepository.ReadNamedActivities | internal/data/repositories/activity_repository.go:70-74 | a page whose types are all names reads back unchanged |
| ActivityRepository.QuizStoredAsUnknown | internal/data/repositories/activity_repository.go:41-53 | an activity inserted with the type `Quiz` is stored as `Unknown`, and that row can no longer be read |
| ActivityRepository.UpdateActivitySpec | internal/data/repositories/activity_repository.go:94-105 | an update changes only the row whose id is the request's, writes its non-zero fields (a non-empty type as its `String()`), stamps `updated_at` and keeps keys unique |
| ActivityRepository.ActivityRepository.UpdateActivityByID | internal/data/repositories/activity_repository.go:94-105 | the request struct gets the stamped `updated_at` and nothing else; the handle's table becomes that update |
| ActivityRepository.ActivityRepository.DeleteActivityByID | internal/data/repositories/activity_repository.go:107-118 | the handle's table loses exactly the rows under that id |
| ActivityRepository.ActivityRepository.DeactiveActivity | internal/data/repositories/activity_repository.go:120-125 | as written: always an error, and the table is unchanged |
| ActivityRepository.DeactiveActivityNeverDeactivates | internal/data/repositories/activity_repository.go:120-125 | as written, no activity is ever deactivated |
| ActivityRepository.DeactivateActivitySpec | internal/data/repositories/activity_repository.go:120-125 | the intended deactivation marks every row under the id inactive, keeps them, and leaves other activities alone |
| ActivityRepository.ActivityRepository.DeactiveActivityCorrected | internal/data/repositories/activity_repository.go:120-125 | the table becomes the intended deactivation |
| ActivityRepeatDayRepository.RepeatDaysStored | internal/data/repositories/activity_repeat_day_repository.go:25-35 | each row of the batch is stored as `Models.RepeatDayStored` says: the default for an empty day, `unknown` for a value outside the week |
| ActivityRepeatDayRepository.StoredDayReadsBack | internal/data/models/activity_repeat_day.go:12 | a stored day scans back exactly when the batch's day was empty or a day name, and then as stored |
| ActivityRepeatDayRepository.ActivityRepeatDayRepository.InsertRepeatDay | internal/data/repositories/activity_repeat_day_repository.go:25-35 | the handle's table gains every row of a non-empty batch, each with its day written through `WeekDay.Value` |
| ActivityRepeatDayRepository.UpdateRepeatDaysSpec | internal/data/repositories/activity_repeat_day_repository.go:37-56 | after the replace the activity's rows are exactly the batch as stored (defaults, and days through `Value`), other activities are unchanged, and a failed delete inserts nothing |
| ActivityRepeatDayRepository.ActivityRepeatDayRepository.UpdateRepeatDayByID | internal/data/repositories/activity_repeat_day_repository.go:37-56 | the handle's table becomes the delete-then-create replacement of the stored batch |
| ActivityRepeatDayRepository.ActivityRepeatDayRepository.DeleteRepeatDayByID | internal/data/repositories/activity_repeat_day_repository.go:58-68 | the handle's table loses exactly that activity's rows |
| ProgramDiseaseRepository.ProgramDiseaseRepository.CreateProgramDisease | internal/data/repositories/program_disease_repository.go:25-31 | the handle's table gains every row of the batch |
| ProgramDiseaseRepository.ProgramDiseaseRepository.DeleteProgramDisease | internal/data/repositories/program_disease_repository.go:33-43 | the rows with that `program_id` are removed |
| ProgramDiseaseRepository.ProgramDiseaseRepository.UpdateProgramDisease | internal/data/repositories/program_disease_repository.go:45-67 | the table becomes the delete-then-create replacement under that programme |
| ProgramGoalRepository.ProgramGoalRepository.CreateProgramGoal | internal/data/repositories/program_goal_repository.go:25-32 | the handle's table gains every row of the batch |
| ProgramGoalRepository.ProgramGoalRepository.DeleteProgramGoal | internal/data/repositories/program_goal_repository.go:34-44 | the rows with that `program_id` are removed |
| ProgramGoalRepository.ProgramGoalRepository.UpdateProgramGoal | internal/data/repositories/program_goal_repository.go:47-69 | the table becomes the delete-then-create replacement under that programme |
| UserProgramRepository.UserProgramRepository.CountParticipants | internal/data/repositories/user_program_repository.go:25-34 | the count is the number of rows of that programme, 0 when none refers to it, or 0 and an error; nothing is written |
| UserProgramRepository.EnrolmentCounts | internal/data/repositories/user_program_repository.go:29 | an enrolment in another programme does not change the count |
| UserActivityRepository.UserActivityRepository.CountParticipants | internal/data/repositories/user_activity_repository.go:23-34 | the count is the number of rows of that activity, 0 when none refers to it, or 0 and an error; nothing is written |
| UserActivityRepository.ParticipationCounts | internal/data/repositories/user_activity_repository.go:28 | a participation in another activity does not change the count |
| LevelService.NewLevelStored | internal/services/level_service.go:39-47 | the new level has the fresh id, the programme's id, the request's name, description and points, and is active |
| LevelService.LevelService.CreateLevel | internal/services/level_service.go:26-54 | an unreadable programme id or a missing or inactive programme inserts nothing; otherwise exactly one active level is inserted under an active programme, with a nil transaction, and returned; an insert error returns no level |
| Passwords.HashPasswordAsWritten | utils/bcrypt.go:5-12 | as written: never an error; a hashing failure yields the empty hash |
| Passwords.HashPassword | utils/bcrypt.go:5-12 | corrected: an error exactly when hashing fails, otherwise the hash |
| Passwords.ServiceHash | utils/bcrypt.go:5-12 | what a service's hashing call yields: with the helper as shipped it never fails and a refused password gets the empty hash; with the corrected one it fails exactly when bcrypt does |
| Passwords.HashFailureSwallowed | utils/bcrypt.go:7-9 | the two agree on success; on a hashing failure the as-written one reports success with an empty hash |

## Left out

- HTTP handlers, routing, gin binding and Swagger are not part of this model.
  Neither are the validator tags, response constructors and start-up wiring.
- JWT signing and verification (`utils/token.go`) are not part of this model.
  Token verification and generation are function parameters. The goroutines
  of `GenerateTokens` are not modelled.
- bcrypt is not part of this model: hash and compare are function parameters.
  Which `HashPassword` the services call is their `asWritten` field. With
  `true`, the helper as shipped, a password bcrypt refuses (it refuses more
  than 72 bytes, while the request tags allow 100) is stored as the empty
  hash and the flow goes on. With `false`, the corrected helper of the
  Findings table, the service stops with `HashFailed`.
- SMTP delivery, the Redis and PostgreSQL connections and configuration
  loading are I/O. They are parameters or left out. A send, store or query
  failure is a boolean parameter.
- Redis.RedisStore.StoreOTP: the ten-minute expiry is not modelled, because
  time passing in Redis lies outside the model. A stored code stays until it
  is overwritten.
- Image.HandleFileUpload: the directory creation, `os.Stat`, saving and
  removing files are not modelled as file-system effects. Their outcome is a
  parameter, and the current time is the `timestamp` parameter.
- `HandleFileDeleted`: only the empty-name guard and the path it resolves are
  modelled. The `os.Stat`/`os.Remove` effects are not.
- Strings are sequences of Unicode code points; invalid UTF-8 is not
  modelled. `Text.ToLower` maps the code points whose lower case is an ASCII
  letter as Go's `strings.ToLower` does: `A`-`Z`, the dotted capital I
  (U+0130) and the Kelvin sign (U+212A). It keeps every other code point,
  where Go maps the other upper-case letters to non-ASCII lower-case ones.
  Every name the parsers compare with is ASCII, so whether a parse succeeds,
  and what it returns, agree with Go. `strings.TrimSpace` trims the Unicode
  white space that Go recognises, listed in `Text.IsSpace`.
- WeekDayEnum.ParseCharacterization: on a failure, the error's text is the
  input lower-cased only at those code points; Go also lower-cases other
  upper-case letters in that text.
- StatusEnum.ParseCharacterization: as for the week day, the failure's error
  text is lower-cased only at the code points `Text.FoldsToAscii` names.
- WeekDayEnum.UnmarshalJSONShort: the model counts code points where Go's
  `len(data)` and `data[1:len(data)-1]` count bytes. `encoding/json` passes
  only a quoted token, whose first and last bytes are ASCII quotes, so the
  two agree there. A direct call with a non-ASCII character, such as `é`
  (one code point, two bytes), gives Go's invalid-value error but the
  model's invalid-JSON error.
- WeekDayEnum.UnmarshalJSONIgnoresQuotes: dropping the first and last code
  point is dropping the first and last byte only when those are ASCII, as
  the delimiters of a JSON string are.
- EnumCodec.UnmarshalIgnoresDelimiters: code points rather than bytes, as
  for `WeekDayEnum.UnmarshalJSONShort`.
- ActivityTypeEnum.UnmarshalJSONShort: code points rather than bytes, as for
  `WeekDayEnum.UnmarshalJSONShort`.
- StatusEnum.UnmarshalJSONShort: code points rather than bytes, as for
  `WeekDayEnum.UnmarshalJSONShort`.
- Paging.WindowsTile: holds for row indexes that fit in Go's `int`, which
  every index of a Go slice does. Page and limit are taken as Go `int`s;
  values outside the 64-bit range are not Go values.
- Tables.SortDesc: rows with equal `created_at` keep their storage order.
  PostgreSQL promises no order among them, and two queries may order them
  differently. Go stamps nanoseconds but PostgreSQL stores microseconds, so
  such ties can occur. With distinct times the order is the only one
  (`Tables.SortedDescUnique`).
- Tables.ListDescTiles: holds for the model's one order. When matching rows
  share a creation time, PostgreSQL may break the tie differently for two
  pages, so a row can be on two pages or on none. With distinct times
  `Tables.ListDescDetermined` makes it hold for every order PostgreSQL can
  return.
- AccountRepository.AccountRepository.GetAccounts: returns the tied rows in
  storage order, one of the orders PostgreSQL may return (see
  `Tables.SortDesc`).
- ProgramRepository.ProgramRepository.FindProgramsByExpertID: ties are in
  storage order, as for `GetAccounts`.
- UserService.UserService.GetAllAccounts: ties are in storage order, as for
  `GetAccounts`.
- ActivityRepository.ActivityRepository.FindActivities: the query has no
  ORDER BY. The model returns the matching rows in storage order, which
  PostgreSQL may use but does not promise, so which rows a page holds is not
  determined by the program.
- AccountRepository.AccountRepository.DeactivateAccount: the Go code
  dereferences `tx` (account_repository.go:107), so a nil transaction
  panics. The model's transaction is never nil, and the panic is not
  modelled.
- The serial `id` column of the repeat-day and join tables is not modelled.
  Rows are told apart by their values.
- `BeginTx` (activity_repository.go:32-39, program_repository.go:30-37) is not
  modelled. Opening, committing and discarding a transaction is not part of
  this model. Each method takes a transaction handle that is either the
  ambient database or a separate working copy.
- Transaction isolation, cancellation contexts and concurrent requests are
  not modelled.
- `RefreshToken` (auth_service.go:217-245) is not modelled. It only verifies
  and signs tokens, which are outside this model.
- The programme-tree service, which would compose these repositories into a
  transactional create, update or delete of a whole programme, is not part of
  this model. Neither is its participation-gated delete: their code is not
  among the modelled files.
- The legacy services (program, activity, schedule, expert, profile) and
  `internal/repositories/*` are not modelled. The exception is the account
  repository that `AccountServiceImpl` uses, which is taken to behave as the
  one in `AccountRepository`.
- The goal, qualification and disease repository stubs are not modelled.
- UserService.UserService.ResetPassword: the update selects by the text of the
  found account's id. The claim that this is the account's own row rests on
  the assumption `UserService.ReadsBack`, that PostgreSQL reads back what
  `uuid.UUID.String` prints. With unique ids and e-mails it is then the
  by-e-mail update (`UserService.UpdateByShownIdIsByEmail`).
- AuthService.AuthService.VerifyOTP and AccountService.AccountService.VerifyOTP:
  the verified code is not deleted from Redis, as in the code. A code can be
  used again until it expires, and expiry is not modelled.
- GORM's `Updates` with a struct writes only the non-zero fields. The model
  follows this, so a programme or activity field cannot be reset to its zero
  value through `UpdateProgramByID` or `UpdateActivityByID`.
- Tables.ReadAllSpec: when several rows of a page cannot be
  read, GORM joins their errors; the model reports the error of one of
  them. Error messages, and the `sql: Scan error on column` wrapper
  `database/sql` puts around Scan's error, are not modelled.
- ActivityRepository.ReadActivity: a NULL `type`, which `Scan` reads as
  `Activity`, is not modelled. The column is nullable, but the repository
  never stores NULL.
- ActivityRepeatDayRepository.ActivityRepeatDayRepository.InsertRepeatDay:
  GORM also writes the `monday` default into the caller's batch elements.
  The batch is a value here, so that write-back is not modelled. The same
  holds for `UpdateRepeatDayByID`.
- `is_active` of activities: `models.Activity` has no such field. The model
  gives the row the column (default true) because the deactivation means to
  write it. The as-written operations never read it.

## Findings

| source | as written | input that shows it | evidently intended | confidence | as-written member | corrected member |
|---|---|---|---|---|---|---|
| internal/data/repositories/program_repository.go:91 | `Update("is_active = ?", false)` passes the text as a column name; there is no such column, so every call fails and nothing changes | any programme id, for example one whose row is active | set `is_active` to false on that programme, so that `FindProgramByID` no longer finds it | not executed | ProgramRepository.DeactiveProgramKeepsProgramVisible | ProgramRepository.DeactivateProgramHides |
| internal/data/repositories/activity_repository.go:124 | the same `Update("is_active = ?", false)`, on a model that also lacks an `IsActive` field; no activity is ever deactivated | any activity id | set `is_active` to false on that activity's row | not executed | ActivityRepository.DeactiveActivityNeverDeactivates | ActivityRepository.DeactivateActivitySpec |
| internal/middleware/auth_middleware.go:20-23 | a header that does not start with `Bearer ` gets a 401 but is not aborted, so the handler chain runs on | `Authorization: Basic abc` | abort, as every other rejecting branch does | not executed | AuthMiddleware.BasicHeaderRunsOn | AuthMiddleware.GateCorrectedAgrees |
| utils/bcrypt.go:7-9 | a hashing failure is swallowed and `("", nil)` returned, so callers store an empty hash and their error branch is dead | a password over 72 bytes, which bcrypt refuses | return the error | not executed | Passwords.HashFailureSwallowed | Passwords.HashPassword |
