/** What the OTP routes promise: how mobile numbers are keyed, that rejected
    requests leave the store alone, and the single-use, time-bounded,
    overwrite-on-reissue life of an issued code. */
module OtpProperties {
  import opened Text
  import opened Http
  import opened OtpRoutes

  predicate IsTenDigits(d: string) {
    |d| == 10 && AllDigits(d)
  }

  /** A bare ten-digit number has no whitespace at its ends. */
  lemma DigitsHaveNoEdgeSpace(d: string)
    requires AllDigits(d)
    ensures NoEdgeSpace(d)
  {
    if d != [] {
      assert IsDigit(d[0]) && IsDigit(d[|d| - 1]);
    }
  }

  /** Stripping the country code from a bare digit string, or from `+91`
      followed by one, leaves the digits. */
  lemma StripDigits(d: string)
    requires AllDigits(d)
    ensures StripCountryCode(d) == d
    ensures StripCountryCode(CountryCode + d) == d
  {
    assert (CountryCode + d)[..3] == CountryCode;
    assert (CountryCode + d)[3..] == d;
    if |d| >= 3 {
      assert d[0] != '+' by { assert IsDigit(d[0]); }
    }
  }

  /** When stripping leaves no whitespace at either end, trimming changes nothing. */
  lemma NormalizeWithoutSpace(s: string)
    requires NoEdgeSpace(StripCountryCode(s))
    ensures NormalizeMobile(Str(s)) == Some(StripCountryCode(s))
  {
    TrimKeeps(StripCountryCode(s));
  }

  // ---------------------------------------------------------------- normalisation

  /** `normalizeMobile` of a string is the prefix-stripped string with exactly
      its surrounding whitespace cut off. */
  lemma NormalizeTrims(s: string)
    ensures NormalizeMobile(Str(s)).Some?
    ensures IsTrimOf(StripCountryCode(s), NormalizeMobile(Str(s)).value)
  {
    TrimCuts(StripCountryCode(s));
  }

  /** A bare ten-digit number is its own key and passes the format check. */
  lemma BareDigitsKey(d: string)
    requires IsTenDigits(d)
    ensures NormalizeMobile(Str(d)) == Some(d)
    ensures IsMobileFormat(d)
  {
    DigitsHaveNoEdgeSpace(d);
    StripDigits(d);
    NormalizeWithoutSpace(d);
  }

  /** `"+91" + d` and `d` name the same store key, `d` itself. */
  lemma CountryCodeAlias(d: string)
    requires IsTenDigits(d)
    ensures NormalizeMobile(Str(CountryCode + d)) == Some(d)
    ensures NormalizeMobile(Str(d)) == Some(d)
    ensures IsMobileFormat(d)
  {
    BareDigitsKey(d);
    StripDigits(d);
    NormalizeWithoutSpace(CountryCode + d);
  }

  /** Only one country code is stripped: `"+91+91" + d` keeps the second one
      and is refused. */
  lemma OnlyOneCountryCodeStripped(d: string)
    requires IsTenDigits(d)
    ensures NormalizeMobile(Str(CountryCode + CountryCode + d)) == Some(CountryCode + d)
    ensures CheckSendMobile(Str(CountryCode + CountryCode + d)) == Rejected(MobileInvalid)
  {
    var t := CountryCode + d;
    var s := CountryCode + t;
    assert CountryCode + CountryCode + d == s;
    assert s[..3] == CountryCode && s[3..] == t;
    assert StripCountryCode(s) == t;
    assert t[0] == '+' && t[|t| - 1] == d[9] && IsDigit(d[9]);
    NormalizeWithoutSpace(s);
    assert |t| == 13 && !IsMobileFormat(t);
    assert s != [] && NormalizeMobile(Str(s)).value == t;
    assert CheckSendMobile(Str(s)) == Rejected(MobileInvalid);
  }

  /** `^\+?\d{10}$` admits exactly ten digits, bare or after one `+`. */
  lemma MobileFormatShape(s: string)
    ensures IsMobileFormat(s) <==> exists d :: IsTenDigits(d) && (s == d || s == "+" + d)
  {
    if IsMobileFormat(s) {
      var d := if |s| == 10 then s else s[1..];
      assert IsTenDigits(d) && (s == d || s == "+" + d);
    }
    if exists d :: IsTenDigits(d) && (s == d || s == "+" + d) {
      var d :| IsTenDigits(d) && (s == d || s == "+" + d);
      if s != d {
        assert s[1..] == d;
      }
    }
  }

  /** A bare digit string of any length other than ten, such as `"12345"`, is refused. */
  lemma WrongLengthRejected(d: string)
    requires AllDigits(d) && d != [] && |d| != 10
    ensures CheckSendMobile(Str(d)) == Rejected(MobileInvalid)
  {
    DigitsHaveNoEdgeSpace(d);
    StripDigits(d);
    NormalizeWithoutSpace(d);
    assert d[0] != '+' by { assert IsDigit(d[0]); }
  }

  /** A non-string mobile makes `normalizeMobile` throw, and neither handler gets that far. */
  lemma NonStringMobileRejected(v: JsValue, w: JsValue)
    requires !v.Str?
    ensures NormalizeMobile(v) == None
    ensures CheckSendMobile(v).Rejected?
    ensures CheckVerifyBody(Fields(v, w)).Rejected?
  {
  }

  /** The format check admits a leading `+` that normalisation leaves in place:
      `"+" + d` (for `d` not starting with `91`) is accepted and keyed as
      `"+" + d`, so the SMS goes to `"+91+" + d`. */
  lemma LeadingPlusKept(store: Store, d: string, now: int, n: int, smsOk: bool)
    requires IsTenDigits(d) && !(d[0] == '9' && d[1] == '1')
    requires 100000 <= n <= 999999
    ensures NormalizeMobile(Str("+" + d)) == Some("+" + d)
    ensures CheckSendMobile(Str("+" + d)) == Valid("+" + d)
    ensures var o := SendSpec(store, Fields(Str("+" + d), Missing), now, n, smsOk);
      o.sms == Some(Sms("+91+" + d, SmsText(GenerateOtp(n))))
      && "+" + d in o.store && (d in o.store <==> d in store)
  {
    var s := "+" + d;
    assert StripCountryCode(s) == s by { assert s[1] == d[0] && s[2] == d[1]; }
    assert NoEdgeSpace(s) by { assert s[|s| - 1] == d[9] && IsDigit(d[9]); }
    NormalizeWithoutSpace(s);
    assert IsMobileFormat(s) by { assert s[1..] == d; }
    assert CheckSendMobile(Str(s)) == Valid(s);
    SendReachesStore(store, s, Missing, now, n, smsOk, s);
    assert CountryCode + s == "+91+" + d;
    assert s != d by { assert |s| != |d|; }
  }

  /** The same for the number `+9876543210`. */
  lemma LeadingPlusExample()
    ensures CheckSendMobile(Str("+9876543210")) == Valid("+9876543210")
  {
    var d := "9876543210";
    assert IsTenDigits(d);
    assert "+" + d == "+9876543210";
    LeadingPlusKept(map[], d, 0, 100000, true);
  }

  /** Whitespace is trimmed after the prefix is stripped, so `" +91" + d`
      keeps its `+91` and fails the format check in both handlers. */
  lemma TrimAfterStrip(d: string, otp: JsValue)
    requires IsTenDigits(d)
    ensures NormalizeMobile(Str(" " + CountryCode + d)) == Some(CountryCode + d)
    ensures CheckSendMobile(Str(" " + CountryCode + d)) == Rejected(MobileInvalid)
    ensures Truthy(otp) && otp.Str? ==> CheckVerifyBody(Fields(Str(" " + CountryCode + d), otp)) == Rejected(MobileInvalid)
  {
    var t := CountryCode + d;
    var s := " " + t;
    assert " " + CountryCode + d == s;
    assert StripCountryCode(s) == s by { assert s[0] == ' '; }
    assert AllSpace(" ");
    assert NoEdgeSpace(t) by { assert t[0] == '+' && t[|t| - 1] == d[9] && IsDigit(d[9]); }
    assert s == " " + t + "";
    TrimOf(" ", t, "");
    assert NormalizeMobile(Str(s)) == Some(t);
    assert !IsMobileFormat(t) by { assert |t| == 13; }
    assert s != [];
  }

  // ---------------------------------------------------------------- code generation

  /** Distinct generated integers give distinct codes. */
  lemma GenerateOtpInjective(n1: int, n2: int)
    requires 100000 <= n1 <= 999999 && 100000 <= n2 <= 999999
    ensures GenerateOtp(n1) == GenerateOtp(n2) <==> n1 == n2
  {
  }

  // ---------------------------------------------------------------- /send
  
  /** The checks of `/send` run in the source's order (mobile present, mobile
      a string, mobile format), and each refusal is a 400 with that check's
      error that leaves the store alone and sends nothing. */
  lemma SendCheckOrder(store: Store, mobile: JsValue, otp: JsValue, now: int, n: int, smsOk: bool)
    requires 100000 <= n <= 999999
    ensures SendSpec(store, Primitive, now, n, smsOk) == SendOutcome(Response(400, Error(MobileRequired)), store, None)
    ensures !Truthy(mobile) ==> SendSpec(store, Fields(mobile, otp), now, n, smsOk)
                                == SendOutcome(Response(400, Error(MobileRequired)), store, None)
    ensures Truthy(mobile) && !mobile.Str? ==> SendSpec(store, Fields(mobile, otp), now, n, smsOk)
                                               == SendOutcome(Response(400, Error(MobileNotString)), store, None)
    ensures mobile.Str? && mobile.s != [] && !IsMobileFormat(NormalizeMobile(mobile).value)
            ==> SendSpec(store, Fields(mobile, otp), now, n, smsOk)
                == SendOutcome(Response(400, Error(MobileInvalid)), store, None)
  {
  }

  /** A string mobile that normalises to a valid key gets past every check of
      `/send`: the record is written and the code handed to the transport. */
  lemma SendReachesStore(store: Store, mobile: string, otp: JsValue, now: int, n: int, smsOk: bool, key: string)
    requires 100000 <= n <= 999999
    requires NormalizeMobile(Str(mobile)) == Some(key) && IsMobileFormat(key)
    ensures SendSpec(store, Fields(Str(mobile), otp), now, n, smsOk)
            == SendOutcome(if smsOk then Response(200, Message(OtpSent)) else Response(500, Error(SendFailed)),
                           store[key := OtpRecord(GenerateOtp(n), now + TtlMillis)],
                           Some(Sms(CountryCode + key, SmsText(GenerateOtp(n)))))
  {
    assert Truthy(Str(mobile));
    assert CheckSendMobile(Str(mobile)) == Valid(key);
  }

  /** A request `/send` rejects gets 400 with the first failing check's error,
      leaves the store as it was and sends no SMS; an absent body makes the
      destructuring throw, which the handler's catch turns into 500. */
  lemma SendRejectionHasNoEffect(store: Store, body: Body, now: int, n: int, smsOk: bool)
    requires 100000 <= n <= 999999
    ensures var o := SendSpec(store, body, now, n, smsOk);
      (o.sms.None? <==> body.NoBody? || CheckSendMobile(SendMobile(body).value).Rejected?)
      && (o.sms.None? ==> o.store == store)
      && (body.NoBody? ==> o.response == Response(500, Error(SendFailed)))
      && (o.response.status == 400 <==> !body.NoBody? && CheckSendMobile(SendMobile(body).value).Rejected?)
  {
  }

  /** A request `/send` accepts writes `{otp, expires: now + 300000}` under the
      normalised key, overwriting any earlier record and keeping every other
      key, and then hands the code to the transport for `+91<key>`. */
  lemma SendWritesRecord(store: Store, body: Body, now: int, n: int, smsOk: bool, key: string)
    requires 100000 <= n <= 999999
    requires SendMobile(body).Some? && CheckSendMobile(SendMobile(body).value) == Valid(key)
    ensures var o := SendSpec(store, body, now, n, smsOk);
      o.store.Keys == store.Keys + {key}
      && o.store[key] == OtpRecord(GenerateOtp(n), now + 300000)
      && (forall k :: k in store && k != key ==> o.store[k] == store[k])
      && o.sms == Some(Sms("+91" + key, "Your Connect Nipun OTP is " + GenerateOtp(n)))
  {
  }

  /** A ten-digit number, written bare or after `+91`, gets past every check
      of `/send` and is keyed as the bare digits. */
  lemma SendDigits(store: Store, mobile: string, now: int, n: int, smsOk: bool, d: string)
    requires IsTenDigits(d) && (mobile == d || mobile == CountryCode + d)
    requires 100000 <= n <= 999999
    ensures SendSpec(store, Fields(Str(mobile), Missing), now, n, smsOk)
            == SendOutcome(if smsOk then Response(200, Message(OtpSent)) else Response(500, Error(SendFailed)),
                           store[d := OtpRecord(GenerateOtp(n), now + TtlMillis)],
                           Some(Sms(CountryCode + d, SmsText(GenerateOtp(n)))))
  {
    CountryCodeAlias(d);
    SendReachesStore(store, mobile, Missing, now, n, smsOk, d);
  }

  /** A failed SMS delivery answers 500 but the record written before it stays,
      and the undelivered code still verifies. */
  lemma FailedDeliveryKeepsRecord(store: Store, d: string, now: int, n: int, later: int)
    requires IsTenDigits(d) && 100000 <= n <= 999999
    requires now <= later <= now + TtlMillis
    ensures var o := SendSpec(store, Fields(Str(d), Missing), now, n, false);
      o.response == Response(500, Error(SendFailed))
      && d in o.store && o.store[d].otp == GenerateOtp(n)
      && VerifySpec(o.store, Fields(Str(d), Str(GenerateOtp(n))), later).response.status == 200
  {
    SendDigits(store, d, now, n, false, d);
    var s1 := store[d := OtpRecord(GenerateOtp(n), now + TtlMillis)];
    VerifyDigits(s1, d, GenerateOtp(n), later);
  }

  // ---------------------------------------------------------------- /verify

  /** A string mobile that normalises to a valid key and a six-digit code get
      past every check of `/verify`; what follows is the store lookup. */
  lemma VerifyReachesStore(store: Store, mobile: string, code: string, now: int, key: string)
    requires NormalizeMobile(Str(mobile)) == Some(key) && IsMobileFormat(key) && IsOtpFormat(code)
    ensures VerifySpec(store, Fields(Str(mobile), Str(code)), now) == Decide(store, Submission(key, code), now)
  {
    assert Truthy(Str(mobile)) && Truthy(Str(code));
    assert CheckVerifyBody(Fields(Str(mobile), Str(code))) == Valid(Submission(key, code));
  }

  /** Ten digits and a six-digit code: `/verify` goes straight to the store lookup. */
  lemma VerifyDigits(store: Store, d: string, code: string, now: int)
    requires IsTenDigits(d) && IsOtpFormat(code)
    ensures VerifySpec(store, Fields(Str(d), Str(code)), now) == Decide(store, Submission(d, code), now)
  {
    BareDigitsKey(d);
    VerifyReachesStore(store, d, code, now, d);
  }

  /** Every rejection by the validation chain is a 400 that does not depend
      on the store and does not change it. */
  lemma VerifyRejectionIgnoresStore(s1: Store, s2: Store, body: Body, now1: int, now2: int)
    requires CheckVerifyBody(body).Rejected?
    ensures VerifySpec(s1, body, now1).store == s1
    ensures VerifySpec(s1, body, now1).response == VerifySpec(s2, body, now2).response
    ensures VerifySpec(s1, body, now1).response.status == 400
  {
  }

  /** The checks run in the source's order: body, mobile present, otp present,
      mobile a string, otp a string, mobile format, otp format. */
  lemma VerifyCheckOrder(mobile: JsValue, otp: JsValue)
    ensures CheckVerifyBody(NoBody) == Rejected(InvalidBody)
    ensures CheckVerifyBody(Primitive) == Rejected(InvalidBody)
    ensures !Truthy(mobile) ==> CheckVerifyBody(Fields(mobile, otp)) == Rejected(MobileRequired)
    ensures Truthy(mobile) && !Truthy(otp) ==> CheckVerifyBody(Fields(mobile, otp)) == Rejected(OtpRequired)
    ensures Truthy(mobile) && Truthy(otp) && !mobile.Str?
            ==> CheckVerifyBody(Fields(mobile, otp)) == Rejected(MobileNotString)
    ensures Truthy(mobile) && Truthy(otp) && mobile.Str? && !otp.Str?
            ==> CheckVerifyBody(Fields(mobile, otp)) == Rejected(OtpNotString)
    ensures mobile.Str? && mobile.s != [] && otp.Str? && otp.s != [] && !IsMobileFormat(NormalizeMobile(mobile).value)
            ==> CheckVerifyBody(Fields(mobile, otp)) == Rejected(MobileInvalid)
  {
  }

  /** `"12a45b"` is not a six-digit code: rejected before the store is read. */
  lemma NonNumericCodeRejected(store: Store, d: string, now: int)
    requires IsTenDigits(d)
    ensures VerifySpec(store, Fields(Str(d), Str("12a45b")), now)
            == VerifyOutcome(Response(400, Error(OtpInvalid)), store)
  {
    BareDigitsKey(d);
    var code := "12a45b";
    assert !IsOtpFormat(code) by { assert !IsDigit(code[2]); }
    VerifyRejectsCodeFormat(store, d, code, now, d);
  }

  /** A code that is present but not six digits is refused before the store is read. */
  lemma VerifyRejectsCodeFormat(store: Store, mobile: string, code: string, now: int, key: string)
    requires NormalizeMobile(Str(mobile)) == Some(key) && IsMobileFormat(key)
    requires code != [] && !IsOtpFormat(code)
    ensures VerifySpec(store, Fields(Str(mobile), Str(code)), now)
            == VerifyOutcome(Response(400, Error(OtpInvalid)), store)
  {
    assert mobile != [];
    assert CheckVerifyBody(Fields(Str(mobile), Str(code))) == Rejected(OtpInvalid);
  }

  /** `/verify` never adds or changes a record; it removes at most the submitted key. */
  lemma VerifyOnlyRemoves(store: Store, body: Body, now: int)
    ensures var o := VerifySpec(store, body, now);
      o.store == store || (CheckVerifyBody(body).Valid? && o.store == store - {CheckVerifyBody(body).value.key})
  {
    match CheckVerifyBody(body)
    case Rejected(_) =>
    case Valid(sub) =>
      assert VerifySpec(store, body, now) == Decide(store, sub, now);
  }

  /** The four outcomes of a checked submission, each with its effect on the store. */
  lemma DecideOutcomes(store: Store, sub: Submission, now: int)
    ensures var o := Decide(store, sub, now);
      (sub.key !in store ==> o == VerifyOutcome(Response(400, Error(NotFoundOrExpired)), store))
      && (sub.key in store && now > store[sub.key].expires
          ==> o == VerifyOutcome(Response(400, Error(Expired)), store - {sub.key}))
      && (sub.key in store && now <= store[sub.key].expires && store[sub.key].otp != sub.otp
          ==> o == VerifyOutcome(Response(400, Error(IncorrectOtp)), store))
      && (o.response.status == 200
          <==> sub.key in store && now <= store[sub.key].expires && store[sub.key].otp == sub.otp)
      && (o.response.status == 200 ==> o.store == store - {sub.key})
  {
  }

  /** An expired record is rejected as expired, and removed, even when the code matches. */
  lemma ExpiryBeforeComparison(store: Store, d: string, code: string, now: int)
    requires IsTenDigits(d) && IsOtpFormat(code)
    requires d in store && store[d].otp == code && now > store[d].expires
    ensures VerifySpec(store, Fields(Str(d), Str(code)), now)
            == VerifyOutcome(Response(400, Error(Expired)), store - {d})
  {
    VerifyDigits(store, d, code, now);
  }

  /** Verifying at the expiry instant itself still succeeds; one millisecond later is too late. */
  lemma ExpiryBoundary(store: Store, d: string, code: string)
    requires IsTenDigits(d) && IsOtpFormat(code)
    requires d in store && store[d].otp == code
    ensures VerifySpec(store, Fields(Str(d), Str(code)), store[d].expires).response.status == 200
    ensures VerifySpec(store, Fields(Str(d), Str(code)), store[d].expires + 1).response
            == Response(400, Error(Expired))
  {
    VerifyDigits(store, d, code, store[d].expires);
    VerifyDigits(store, d, code, store[d].expires + 1);
  }

  /** A wrong code leaves the record in place, so the right code can still be entered after it. */
  lemma MismatchAllowsRetry(store: Store, d: string, wrong: string, right: string, t1: int, t2: int)
    requires IsTenDigits(d) && IsOtpFormat(wrong) && IsOtpFormat(right)
    requires d in store && store[d].otp == right && wrong != right
    requires t1 <= t2 <= store[d].expires
    ensures var o1 := VerifySpec(store, Fields(Str(d), Str(wrong)), t1);
      o1 == VerifyOutcome(Response(400, Error(IncorrectOtp)), store)
      && VerifySpec(o1.store, Fields(Str(d), Str(right)), t2)
         == VerifyOutcome(Response(200, Message(OtpVerified)), store - {d})
  {
    VerifyDigits(store, d, wrong, t1);
    VerifyDigits(store, d, right, t2);
  }

  /** A successful verification consumes the record: the same request again is not found. */
  lemma SingleUse(store: Store, body: Body, t1: int, t2: int)
    requires VerifySpec(store, body, t1).response.status == 200
    ensures VerifySpec(VerifySpec(store, body, t1).store, body, t2).response
            == Response(400, Error(NotFoundOrExpired))
  {
    var sub := CheckVerifyBody(body).value;
    assert VerifySpec(store, body, t1) == Decide(store, sub, t1);
    assert VerifySpec(store, body, t1).store == store - {sub.key};
  }

  // ---------------------------------------------------------------- /send then /verify

  /** A code sent for `d` verifies within five minutes, whether the number was
      sent as `d` or as `+91d`, and only once. */
  lemma SendThenVerify(store: Store, d: string, mobile: string, now: int, n: int, later: int, again: int)
    requires IsTenDigits(d) && (mobile == d || mobile == CountryCode + d) && 100000 <= n <= 999999
    requires now <= later <= now + TtlMillis
    ensures var sent := SendSpec(store, Fields(Str(mobile), Missing), now, n, true);
      var v1 := VerifySpec(sent.store, Fields(Str(d), Str(GenerateOtp(n))), later);
      sent.response == Response(200, Message(OtpSent))
      && v1 == VerifyOutcome(Response(200, Message(OtpVerified)), store - {d})
      && VerifySpec(v1.store, Fields(Str(d), Str(GenerateOtp(n))), again).response
         == Response(400, Error(NotFoundOrExpired))
  {
    var code := GenerateOtp(n);
    SendDigits(store, mobile, now, n, true, d);
    var s1 := store[d := OtpRecord(code, now + TtlMillis)];
    VerifyDigits(s1, d, code, later);
    assert s1 - {d} == store - {d};
    VerifyDigits(store - {d}, d, code, again);
  }

  /** Re-sending replaces the record: the earlier code, if it differs, is now incorrect. */
  lemma ResendInvalidatesEarlierCode(store: Store, d: string, t1: int, n1: int, t2: int, n2: int, t3: int)
    requires IsTenDigits(d) && 100000 <= n1 <= 999999 && 100000 <= n2 <= 999999
    requires n1 != n2 && t3 <= t2 + TtlMillis
    ensures var s1 := SendSpec(store, Fields(Str(d), Missing), t1, n1, true).store;
      var s2 := SendSpec(s1, Fields(Str(d), Missing), t2, n2, true).store;
      VerifySpec(s2, Fields(Str(d), Str(GenerateOtp(n1))), t3)
      == VerifyOutcome(Response(400, Error(IncorrectOtp)), s2)
  {
    GenerateOtpInjective(n1, n2);
    SendDigits(store, d, t1, n1, true, d);
    var s1 := store[d := OtpRecord(GenerateOtp(n1), t1 + TtlMillis)];
    SendDigits(s1, d, t2, n2, true, d);
    var s2 := s1[d := OtpRecord(GenerateOtp(n2), t2 + TtlMillis)];
    VerifyDigits(s2, d, GenerateOtp(n1), t3);
  }

  // ---------------------------------------------------------------- the handlers on one store

  /** The handlers on a fresh store: a code sent for `d` verifies once within
      five minutes, and the same request a second time is not found. */
  method SendVerifyVerify(d: string, now: int, n: int, later: int) returns (sent: Response, first: Response, second: Response)
    requires IsTenDigits(d) && 100000 <= n <= 999999 && now <= later <= now + TtlMillis
    ensures sent == Response(200, Message(OtpSent))
    ensures first == Response(200, Message(OtpVerified))
    ensures second == Response(400, Error(NotFoundOrExpired))
  {
    var store := new OtpStore();
    var sms;
    ghost var s0 := store.entries;
    sent, sms := store.Send(Fields(Str(d), Missing), now, n, true);
    var request := Fields(Str(d), Str(GenerateOtp(n)));
    first := store.Verify(request, later);
    second := store.Verify(request, later);
    SendThenVerify(s0, d, d, now, n, later, later);
  }
}
