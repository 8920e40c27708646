/** The OTP routes: phone-number normalisation, code generation, the
    in-memory store of issued codes and the `/send` and `/verify` handlers. */
module OtpRoutes {
  import opened Text
  import opened Http

  /** Lifetime of an issued code, in milliseconds (5 minutes). */
  const TtlMillis: int := 5 * 60 * 1000
  /** Prefix stripped from the mobile number and prepended for the SMS. */
  const CountryCode: string := "+91"

  const MobileRequired: string := "Mobile number is required"
  const MobileNotString: string := "Mobile number must be a string"
  const MobileInvalid: string := "Valid mobile number is required (10 digits)"
  const OtpRequired: string := "OTP is required"
  const OtpNotString: string := "OTP must be a string"
  const OtpInvalid: string := "OTP must be a 6-digit number"
  const InvalidBody: string := "Invalid request body"
  const NotFoundOrExpired: string := "OTP not found or expired"
  const Expired: string := "OTP expired"
  const IncorrectOtp: string := "Incorrect OTP"
  const SendFailed: string := "Failed to send OTP via Twilio \U{274C}"
  const OtpSent: string := "OTP sent \U{2705}"
  const OtpVerified: string := "OTP verified \U{2705}"

  /** An issued code and the time (milliseconds since the epoch) after which it is dead. */
  datatype OtpRecord = OtpRecord(otp: string, expires: int)

  type Store = map<string, OtpRecord>

  /** The text message the SMS transport is asked to deliver. */
  datatype Sms = Sms(to: string, text: string)

  /** Outcome of one validation chain: the first failing check's error, or the checked value. */
  datatype Checked<T> = Rejected(error: string) | Valid(value: T)

  /** What `/verify` goes on with once every check has passed. */
  datatype Submission = Submission(key: string, otp: string)

  datatype SendOutcome = SendOutcome(response: Response, store: Store, sms: Option<Sms>)
  datatype VerifyOutcome = VerifyOutcome(response: Response, store: Store)

  // ---------------------------------------------------------------- pure helpers

  /** `s.replace(/^\+91/, '')`: drops one leading country code, if there is one. */
  function StripCountryCode(s: string): (r: string)
    ensures |s| >= 3 && s[..3] == CountryCode ==> CountryCode + r == s
    ensures !(|s| >= 3 && s[..3] == CountryCode) ==> r == s
  {
    if |s| >= 3 && s[..3] == CountryCode then s[3..] else s
  }

  /** `normalizeMobile`: throws (here `None`) on a non-string; otherwise strips
      one leading `+91` and then trims whitespace. */
  function NormalizeMobile(mobile: JsValue): (r: Option<string>)
    ensures r.None? <==> !mobile.Str?
    ensures r.Some? ==> NoEdgeSpace(r.value) && |r.value| <= |mobile.s|
  {
    match mobile
    case Str(s) => Some(Trim(StripCountryCode(s)))
    case _ => None
  }

  /** `/^\+?\d{10}$/`: ten ASCII digits, optionally after one `+`. */
  predicate IsMobileFormat(s: string) {
    (|s| == 10 && AllDigits(s)) || (|s| == 11 && s[0] == '+' && AllDigits(s[1..]))
  }

  /** `/^\d{6}$/`: exactly six ASCII digits. */
  predicate IsOtpFormat(s: string) {
    |s| == 6 && AllDigits(s)
  }

  /** `generateOTP`, given the integer `Math.floor(100000 + Math.random() * 900000)`:
      its decimal text has six digits, no leading zero, and denotes `n`. */
  function GenerateOtp(n: int): (code: string)
    requires 100000 <= n <= 999999
    ensures IsOtpFormat(code) && code[0] != '0'
    ensures DecimalValue(code) == n
  {
    assert Pow10(5) == 100000 && Pow10(6) == 1000000;
    NatToDecimalLength(n, 6);
    NatToDecimal(n)
  }

  /** The body of the text message: a fixed greeting that ends with the code. */
  function SmsText(code: string): (text: string)
    ensures |text| > |code| && text[|text| - |code|..] == code
  {
    "Your Connect Nipun OTP is " + code
  }

  // ---------------------------------------------------------------- validation chains

  /** The checks `/send` makes of `mobile` before it touches the store. */
  function CheckSendMobile(mobile: JsValue): (r: Checked<string>)
    ensures r.Valid? <==> mobile.Str? && IsMobileFormat(NormalizeMobile(mobile).value)
    ensures r.Valid? ==> NormalizeMobile(mobile) == Some(r.value)
    ensures r.Rejected? ==> r.error in {MobileRequired, MobileNotString, MobileInvalid}
    ensures !Truthy(mobile) ==> r == Rejected(MobileRequired)
    ensures Truthy(mobile) && !mobile.Str? ==> r == Rejected(MobileNotString)
    ensures mobile.Str? && mobile.s != [] && !IsMobileFormat(NormalizeMobile(mobile).value)
            ==> r == Rejected(MobileInvalid)
  {
    if !Truthy(mobile) then Rejected(MobileRequired)
    else if !mobile.Str? then Rejected(MobileNotString)
    else if !IsMobileFormat(NormalizeMobile(mobile).value) then Rejected(MobileInvalid)
    else Valid(NormalizeMobile(mobile).value)
  }

  /** The ordered checks `/verify` makes of its body before it touches the store. */
  function CheckVerifyBody(body: Body): (r: Checked<Submission>)
    ensures r.Valid? <==> body.Fields? && body.mobile.Str? && body.otp.Str?
                          && IsMobileFormat(NormalizeMobile(body.mobile).value)
                          && IsOtpFormat(body.otp.s)
    ensures r.Valid? ==> NormalizeMobile(body.mobile) == Some(r.value.key)
                         && r.value.otp == body.otp.s
  {
    if !body.Fields? then Rejected(InvalidBody)
    else if !Truthy(body.mobile) then Rejected(MobileRequired)
    else if !Truthy(body.otp) then Rejected(OtpRequired)
    else if !body.mobile.Str? then Rejected(MobileNotString)
    else if !body.otp.Str? then Rejected(OtpNotString)
    else if !IsMobileFormat(NormalizeMobile(body.mobile).value) then Rejected(MobileInvalid)
    else if !IsOtpFormat(body.otp.s) then Rejected(OtpInvalid)
    else Valid(Submission(NormalizeMobile(body.mobile).value, body.otp.s))
  }

  // ---------------------------------------------------------------- handler specifications

  /** `const { mobile } = req.body`: throws (here `None`) on `undefined` or `null`. */
  function SendMobile(body: Body): (r: Option<JsValue>)
    ensures r.None? <==> body.NoBody?
    ensures body.Fields? ==> r == Some(body.mobile)
    ensures body.Primitive? ==> r == Some(Missing)
  {
    match body
    case NoBody => None
    case Primitive => Some(Missing)
    case Fields(mobile, _) => Some(mobile)
  }

  /** What `/send` answers, stores and asks the SMS transport to send, given the
      time, the generated integer and whether the transport succeeds. */
  function SendSpec(store: Store, body: Body, now: int, n: int, smsOk: bool): (o: SendOutcome)
    requires 100000 <= n <= 999999
    ensures o.response.status in {200, 400, 500}
    ensures o.response.status == 200 <==> o.sms.Some? && smsOk
    ensures o.sms.None? ==> o.store == store
    ensures store.Keys <= o.store.Keys
  {
    match SendMobile(body)
    case None => SendOutcome(Response(500, Error(SendFailed)), store, None)
    case Some(mobile) =>
      match CheckSendMobile(mobile)
      case Rejected(e) => SendOutcome(Response(400, Error(e)), store, None)
      case Valid(key) =>
        var code := GenerateOtp(n);
        SendOutcome(if smsOk then Response(200, Message(OtpSent)) else Response(500, Error(SendFailed)),
                    store[key := OtpRecord(code, now + TtlMillis)],
                    Some(Sms(CountryCode + key, SmsText(code))))
  }

  /** The store lookup of `/verify`: not found, expired (checked before the
      code), incorrect, or verified. */
  function Decide(store: Store, sub: Submission, now: int): (o: VerifyOutcome)
    ensures o.store == store || o.store == store - {sub.key}
    ensures o.response.status == 200
            <==> sub.key in store && now <= store[sub.key].expires && store[sub.key].otp == sub.otp
    ensures sub.key in o.store
            <==> sub.key in store && now <= store[sub.key].expires && store[sub.key].otp != sub.otp
  {
    if sub.key !in store then VerifyOutcome(Response(400, Error(NotFoundOrExpired)), store)
    else if now > store[sub.key].expires then
      VerifyOutcome(Response(400, Error(Expired)), store - {sub.key})
    else if store[sub.key].otp != sub.otp then VerifyOutcome(Response(400, Error(IncorrectOtp)), store)
    else VerifyOutcome(Response(200, Message(OtpVerified)), store - {sub.key})
  }

  /** What `/verify` answers and leaves in the store. */
  function VerifySpec(store: Store, body: Body, now: int): (o: VerifyOutcome)
    ensures o.response.status in {200, 400}
    ensures o.store.Keys <= store.Keys
    ensures o.response.status == 200
            ==> body.Fields? && body.otp.Str? && NormalizeMobile(body.mobile).Some?
                && var key := NormalizeMobile(body.mobile).value;
                   key in store && store[key].otp == body.otp.s && now <= store[key].expires
                   && o.store == store - {key}
  {
    match CheckVerifyBody(body)
    case Rejected(e) => VerifyOutcome(Response(400, Error(e)), store)
    case Valid(sub) => Decide(store, sub, now)
  }

  // ---------------------------------------------------------------- the store and its handlers

  /** The module-level `otpStore` map and the two handlers that update it. */
  class OtpStore {
    var entries: Store

    constructor ()
      ensures entries == map[]
    {
      entries := map[];
    }

    /** `POST /send`. `now` stands for `Date.now()`, `n` for the integer
        `generateOTP` renders, `smsOk` for whether the transport call succeeds;
        `sms` is the message handed to the transport, if any. */
    method Send(body: Body, now: int, n: int, smsOk: bool) returns (response: Response, sms: Option<Sms>)
      requires 100000 <= n <= 999999
      modifies this
      ensures SendOutcome(response, entries, sms) == SendSpec(old(entries), body, now, n, smsOk)
    {
      sms := None;
      if body.NoBody? {
        return Response(500, Error(SendFailed)), None;
      }
      var mobile := if body.Fields? then body.mobile else Missing;
      var checked := CheckSendMobile(mobile);
      if checked.Rejected? {
        return Response(400, Error(checked.error)), None;
      }
      var normalized := checked.value;
      var otp := GenerateOtp(n);
      entries := entries[normalized := OtpRecord(otp, now + TtlMillis)];
      sms := Some(Sms(CountryCode + normalized, SmsText(otp)));
      if !smsOk {
        return Response(500, Error(SendFailed)), sms;
      }
      response := Response(200, Message(OtpSent));
    }

    /** `POST /verify`. `now` stands for `Date.now()`. */
    method Verify(body: Body, now: int) returns (response: Response)
      modifies this
      ensures VerifyOutcome(response, entries) == VerifySpec(old(entries), body, now)
    {
      var checked := CheckVerifyBody(body);
      if checked.Rejected? {
        return Response(400, Error(checked.error));
      }
      var normalized, otp := checked.value.key, checked.value.otp;
      if normalized !in entries {
        return Response(400, Error(NotFoundOrExpired));
      }
      var record := entries[normalized];
      if now > record.expires {
        entries := entries - {normalized};
        return Response(400, Error(Expired));
      }
      if record.otp != otp {
        return Response(400, Error(IncorrectOtp));
      }
      entries := entries - {normalized};
      response := Response(200, Message(OtpVerified));
    }
  }
}
