# OTP issue/verify routes of the Connect Nipun backend, in Dafny

This project models the one-time-passcode core of the Connect Nipun backend
(an Express server that registers manual-labour workers):

- `routes/otpRoutes.js`: `normalizeMobile`, `generateOTP`, the module-level
  `otpStore` map, and the `POST /send` and `POST /verify` handlers;
- `middleware/isVerified.js`: the gate that lets a request through only when
  its `x-verified` header is exactly `"true"`.

Files and modules:

| file | module | contents |
|---|---|---|
| `text.dfy` | `Text` | ASCII digits, the whitespace `String.prototype.trim` removes, `trimStart`/`trimEnd`/`trim`, decimal rendering of a natural number and its value |
| `http.dfy` | `Http` | JavaScript values as the handlers tell them apart (`Missing`, `Str`, `Other` with its truthiness), request bodies, JSON responses |
| `otp_routes.dfy` | `OtpRoutes` | the constants (TTL 300000 ms, `+91`, every error text), `NormalizeMobile`, the two format regexes, `GenerateOtp`, the validation chains, pure specifications `SendSpec`/`Decide`/`VerifySpec`, and the class `OtpStore` whose `entries` map the `Send` and `Verify` methods update in place |
| `otp_properties.dfy` | `OtpProperties` | lemmas about keys, rejection without effect, overwrite on re-send, expiry before comparison, retry after mismatch, single use, and a client of `OtpStore` |
| `is_verified.dfy` | `IsVerified` | the middleware as a function from the header value to "401 and no `next`" or "`next` once and no response" |

The handlers are methods of `OtpStore` written as the source's early-return
chains, with the validation checks taken from `CheckSendMobile` and
`CheckVerifyBody`; each one's `ensures` equates its answer and the new `entries` with a
pure specification of the old map and the inputs (`SendSpec`, `VerifySpec`).
The properties are lemmas about those specifications, and
`OtpProperties.SendVerifyVerify` runs both methods on a fresh store.

Behaviour of the code that a reader might not expect, which the model keeps:

- The key keeps a leading `+` that the format check lets through.
  `normalizeMobile` drops only a leading `+91`, while the format check
  `^\+?\d{10}$` admits a single `+` before ten digits. So `"+9876543210"` is
  accepted and stored under `"+9876543210"`, and the SMS goes to
  `"+91+9876543210"` (`OtpProperties.LeadingPlusKept`).
- Trimming happens after the prefix strip. So `" +919876543210"` keeps its
  `+91` and is refused (`OtpProperties.TrimAfterStrip`).
- `/send` destructures `req.body` before any check. If the body is
  `undefined` or `null`, this throws, and the handler's `catch` answers 500
  "Failed to send OTP via Twilio ❌". `/verify` answers 400 "Invalid request
  body" for the same input.
- `/verify`'s `catch` (500 "Server error while verifying OTP ❌") cannot be
  reached. Every step after the type checks is total: `normalizeMobile` gets a
  string, and the regex tests and `Map` operations do not throw. So the model
  has no such outcome.

## Model

| member | source | states |
|---|---|---|
| `Text.LeadingSpaceCount` | routes/otpRoutes.js:16 | the count covers only whitespace, and the next character, if any, is not whitespace |
| `Text.TrailingSpaceCount` | routes/otpRoutes.js:16 | the same at the end of the string |
| `Text.Trim` | routes/otpRoutes.js:16 | the result is no longer than the input and has no whitespace at either end |
| `Text.TrimCuts` | routes/otpRoutes.js:16 | the trim is the slice of the input that is left once the leading and trailing whitespace is cut off |
| `Text.TrimKeeps` | routes/otpRoutes.js:16 | a string with no whitespace at its ends is its own trim |
| `Text.TrimOf` | routes/otpRoutes.js:16 | `trim(lead + t + trail)` is `t` for whitespace `lead`/`trail` and `t` without edge whitespace: trim removes exactly the surrounding whitespace |
| `Text.NatToDecimal` | routes/otpRoutes.js:20 | `toString` of a natural is all digits, reads back as the number, has a leading `0` only for 0, and has no more characters than its magnitude needs |
| `Text.NatToDecimalLength` | routes/otpRoutes.js:20 | a number in `[10^(k-1), 10^k)` is written with exactly `k` characters |
| `Text.IsJsSpace` | routes/otpRoutes.js:16 | the characters `trim` removes: the ECMAScript WhiteSpace and LineTerminator code points |
| `Http.Truthy` | routes/otpRoutes.js:28 | the negation of `!x`: `undefined`, the empty string and the falsy non-strings (`null`, `0`, `false`, `NaN`) are false; every other value is true (also the tests at lines 68 and 72) |
| `OtpRoutes.IsMobileFormat` | routes/otpRoutes.js:34 | `^\+?\d{10}$`: ten ASCII digits, optionally after one `+` (also line 84) |
| `OtpRoutes.IsOtpFormat` | routes/otpRoutes.js:88 | `^\d{6}$`: exactly six ASCII digits |
| `OtpProperties.MobileFormatShape` | routes/otpRoutes.js:34 | a string passes the mobile format check exactly when it is ten digits `d` or `"+" + d` |
| `OtpRoutes.SmsText` | routes/otpRoutes.js:43 | the message text ends with the code |
| `OtpRoutes.SendMobile` | routes/otpRoutes.js:26 | destructuring `mobile` out of the body fails exactly on an absent (`undefined`/`null`) body; a primitive body yields `undefined`, an object its `mobile` field |
| `OtpRoutes.SendSpec` | routes/otpRoutes.js:23-54 | `/send` answers 200, 400 or 500; 200 exactly when an SMS was handed over and the transport succeeded; without an SMS the store is unchanged; no record is ever removed |
| `OtpRoutes.Decide` | routes/otpRoutes.js:96-121 | the store is unchanged or loses only the submitted key; 200 exactly when the record exists, has not expired and holds the submitted code; the key survives exactly when the record is live and the code differs |
| `OtpRoutes.VerifySpec` | routes/otpRoutes.js:56-126 | `/verify` answers 200 or 400 and never adds a key; a 200 means the body's normalised mobile had a live record holding the submitted code, and that record is removed |
| `OtpRoutes.StripCountryCode` | routes/otpRoutes.js:16 | when the string starts with `+91`, the result with `+91` put back is the input; otherwise the input is unchanged |
| `OtpRoutes.NormalizeMobile` | routes/otpRoutes.js:12-17 | fails exactly on non-strings; otherwise the key has no whitespace at its ends and is no longer than the input |
| `OtpRoutes.GenerateOtp` | routes/otpRoutes.js:19-21 | for an integer in [100000, 999999] the code is six ASCII digits, does not start with `0`, and denotes that integer |
| `OtpRoutes.CheckSendMobile` | routes/otpRoutes.js:28-36 | accepts exactly the strings whose normalised form matches `^\+?\d{10}$` and yields that normalised form as the key; a falsy value gets "Mobile number is required", a truthy non-string "Mobile number must be a string", and a non-empty string of the wrong form "Valid mobile number is required (10 digits)" |
| `OtpRoutes.CheckVerifyBody` | routes/otpRoutes.js:60-93 | accepts exactly an object body whose `mobile` and `otp` are strings, the mobile normalising to `^\+?\d{10}$` and the otp matching `^\d{6}$`; yields the normalised key and the submitted code |
| `OtpRoutes.OtpStore.constructor` | routes/otpRoutes.js:10 | the store starts empty |
| `OtpRoutes.OtpStore.Send` | routes/otpRoutes.js:23-54 | the response, the new map and the SMS handed to the transport are those of `SendSpec` on the old map |
| `OtpRoutes.OtpStore.Verify` | routes/otpRoutes.js:56-126 | the response and the new map are those of `VerifySpec` on the old map |
| `OtpProperties.NormalizeTrims` | routes/otpRoutes.js:16 | for a string, the key is the `+91`-stripped string with exactly its surrounding whitespace cut off |
| `OtpProperties.BareDigitsKey` | routes/otpRoutes.js:12-17 | a bare ten-digit number is its own key and passes the format check |
| `OtpProperties.CountryCodeAlias` | routes/otpRoutes.js:12-17 | `"+91" + d` and `d` (ten digits) both normalise to the key `d`, which passes the format check |
| `OtpProperties.OnlyOneCountryCodeStripped` | routes/otpRoutes.js:16 | `"+91+91" + d` normalises to `"+91" + d` and `/send` refuses it as malformed |
| `OtpProperties.WrongLengthRejected` | routes/otpRoutes.js:34-36 | a digit string of a length other than ten, such as `"12345"`, is refused with "Valid mobile number is required (10 digits)" |
| `OtpProperties.NonStringMobileRejected` | routes/otpRoutes.js:13-15 | a non-string mobile makes normalisation fail and both handlers refuse it |
| `OtpProperties.LeadingPlusKept` | routes/otpRoutes.js:34-45 | for ten digits `d` not starting with `91`, `"+" + d` passes the format check and is stored under `"+" + d`, not `d`; the SMS goes to `"+91+" + d` (when `d` starts with `91`, the strip removes `+91` and the rest is refused) |
| `OtpProperties.LeadingPlusExample` | routes/otpRoutes.js:34 | `"+9876543210"` is accepted by `/send` with key `"+9876543210"` |
| `OtpProperties.TrimAfterStrip` | routes/otpRoutes.js:16 | `" +91" + d` (as in `" +919876543210"`) normalises to `"+91" + d` and both handlers refuse it as malformed |
| `OtpProperties.GenerateOtpInjective` | routes/otpRoutes.js:19-21 | two generated integers give the same code only if they are equal |
| `OtpProperties.SendCheckOrder` | routes/otpRoutes.js:26-36 | the first failing check decides the `/send` error (a primitive body or a falsy mobile: required; a truthy non-string: not a string; a non-empty string of the wrong form: format), with 400, no SMS and the store unchanged |
| `OtpProperties.SendReachesStore` | routes/otpRoutes.js:38-49 | once the mobile normalises to a valid key, `/send` writes `{code, now + TTL}` under that key, texts `+91<key>`, and answers 200 or 500 as the transport does |
| `OtpProperties.SendRejectionHasNoEffect` | routes/otpRoutes.js:26-36 | `/send` sends no SMS exactly when the body is absent or a check fails; then the store is unchanged; an absent body gives 500, a failed check gives 400 |
| `OtpProperties.SendWritesRecord` | routes/otpRoutes.js:38-46 | an accepted `/send` adds or overwrites only the key's record, sets it to the new code expiring at `now + 300000`, keeps every other record, and texts "Your Connect Nipun OTP is <code>" to `+91<key>` |
| `OtpProperties.SendDigits` | routes/otpRoutes.js:38-49 | a ten-digit number, bare or after `+91`, is stored under the bare digits |
| `OtpProperties.FailedDeliveryKeepsRecord` | routes/otpRoutes.js:40-52 | when the transport fails, the answer is 500, but the record stays and its code still verifies within five minutes |
| `OtpProperties.VerifyReachesStore` | routes/otpRoutes.js:93-96 | once the checks pass, the outcome of `/verify` is the store lookup on the normalised key |
| `OtpProperties.VerifyDigits` | routes/otpRoutes.js:93-96 | the same for a bare ten-digit number and a six-digit code |
| `OtpProperties.VerifyRejectionIgnoresStore` | routes/otpRoutes.js:60-91 | a request the checks refuse gets 400 with an answer that depends on neither the store nor the time, and the store is unchanged |
| `OtpProperties.VerifyCheckOrder` | routes/otpRoutes.js:60-87 | the first failing check decides the message: body, mobile present, otp present, mobile a string, otp a string, mobile format |
| `OtpProperties.VerifyRejectsCodeFormat` | routes/otpRoutes.js:88-91 | a valid mobile with a non-empty code that is not six digits gets "OTP must be a 6-digit number" and the store is unchanged |
| `OtpProperties.NonNumericCodeRejected` | routes/otpRoutes.js:88-91 | `"12a45b"` is refused in this way |
| `OtpProperties.VerifyOnlyRemoves` | routes/otpRoutes.js:96-121 | `/verify` never adds or changes a record; at most it removes the submitted key |
| `OtpProperties.DecideOutcomes` | routes/otpRoutes.js:96-121 | no record gives "OTP not found or expired" and no change; `now > expires` gives "OTP expired" and removes the record; a live record with another code gives "Incorrect OTP" and no change; 200 exactly when the record is live and the code matches, and then the record is removed |
| `OtpProperties.ExpiryBeforeComparison` | routes/otpRoutes.js:106-110 | an expired record with the matching code still gives "OTP expired" and is removed |
| `OtpProperties.ExpiryBoundary` | routes/otpRoutes.js:106 | at `now == expires` the code still verifies; one millisecond later it is expired |
| `OtpProperties.MismatchAllowsRetry` | routes/otpRoutes.js:112-121 | a wrong code leaves the store as it was, so the right code entered afterwards, before expiry, still verifies |
| `OtpProperties.SingleUse` | routes/otpRoutes.js:117-118 | after a successful verification, the same request again gives "OTP not found or expired" |
| `OtpProperties.SendThenVerify` | routes/otpRoutes.js:38-121 | a code sent for `d` (as `d` or `+91d`) verifies within five minutes, removes the record and fails with "OTP not found or expired" a second time |
| `OtpProperties.ResendInvalidatesEarlierCode` | routes/otpRoutes.js:40 | after a second `/send` for the same number, the first code (if it differs) gives "Incorrect OTP" while the second record is live |
| `OtpProperties.SendVerifyVerify` | routes/otpRoutes.js:23-126 | on a fresh `OtpStore`, `Send` then `Verify` twice gives 200, 200 and then 400 "OTP not found or expired" |
| `IsVerified.Gate` | middleware/isVerified.js:1-9 | either 401 "Access denied. Mobile not verified." with no call of `next`, or one call of `next` and no response; `next` is called exactly when the header is the string `"true"` |
| `IsVerified.AllowedStrings` | middleware/isVerified.js:4 | a string header passes exactly when it is `"true"`: any other length, or any differing character, is refused |
| `IsVerified.NearMissesDenied` | middleware/isVerified.js:4-6 | absent, non-string, `"TRUE"`, `"True"`, `"1"`, `"yes"`, `" true"`, `"true "` and `""` are refused with 401; `"true"` passes |

## Left out

- The Twilio client (routes/otpRoutes.js:4-8, 42-46) is network I/O. Whether its call succeeds is the parameter `smsOk`. The model records the message it is asked to send (recipient and text), but not the sender number or the credentials.
- OtpRoutes.GenerateOtp: takes the integer `Math.floor(100000 + Math.random() * 900000)` as a parameter in [100000, 999999], because `Math.random` is floating point and random. Uniformity is not modelled.
- `Date.now()` is the parameter `now`, one value per handler call. In `/verify` the later call at line 106 is the one that matters. JavaScript numbers are doubles; they are modelled as unbounded integers, which agrees for every timestamp below 2^53.
- JavaScript strings are UTF-16 code units; here they are sequences of Unicode scalar values. The digit, `+` and whitespace tests involve only BMP characters, so they agree; lone surrogates cannot be represented.
- `console.log`/`console.error`, the Express `req`/`res` plumbing, and the `async`/`await` scheduling are not modelled. Each handler call is one atomic step. So the model does not capture a `/verify` that runs while `/send` is still waiting on the transport, after its store write.
- `/verify`'s `catch` branch (500): unreachable, as explained above.
- routes/workerRoutes.js (Mongoose queries, multer and Cloudinary uploads, HTML templating), utils/generateQR.js (QR drawing and upload), models/Worker.js (a schema) and server.js (bootstrap) are not part of this model. Where isVerified is mounted (routes/workerRoutes.js:101) is not modelled.
