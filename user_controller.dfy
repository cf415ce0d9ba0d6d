/** The arithmetic and field updates of controllers/userController.js: the registration
    price with and without a referral code, the referrer's count and cashback,
    validateReferralCode's quote, and the field merges of updateUserProfile and
    updateUserStatus. Lookups (a user by email, by referral code, by id) are inputs. */
module UserController {
  import opened Wrappers

  /** The base registration fee, the discount a referral gives, the referral count
      registerUser demands of a referrer, the one validateReferralCode demands, and the
      cashback bounds. */
  const BaseFee: int := 1500
  const ReferralDiscount: int := 50
  const RegisterThreshold: int := 30
  const ValidateThreshold: int := 3
  const CashbackThreshold: int := 3
  const MinCashback: int := 150
  const MaxCashback: int := 1500

  /* ---------------------------------------------------------------------------------- */
  /* Cashback                                                                           */
  /* ---------------------------------------------------------------------------------- */

  /** JavaScript's Math.round(num / den) for a positive den: the floor of the quotient
      plus one half. */
  function JsRound(num: int, den: int): (r: int)
    requires den > 0
    ensures 2 * den * r <= 2 * num + den < 2 * den * (r + 1)
  {
    (2 * num + den) / (2 * den)
  }

  /** The cashback of a referrer with `count` referrals: the maximum from 30 on, linear
      from 150 at 3 referrals to 1500 at 30, and nothing below 3. */
  function Cashback(count: int): int {
    if count >= 30 then MaxCashback
    else if count >= CashbackThreshold then
      MinCashback + JsRound((count - CashbackThreshold) * (MaxCashback - MinCashback), 30 - CashbackThreshold)
    else 0
  }

  /** The rounding is exact: each referral past the third adds 50, from 150 up to 1450
      at 29 referrals; from 30 on the cashback is 1500. */
  lemma CashbackClosedForm(count: int)
    ensures CashbackThreshold <= count < 30 ==>
              Cashback(count) == MinCashback + 50 * (count - CashbackThreshold)
              && MinCashback <= Cashback(count) <= 1450
    ensures count >= 30 ==> Cashback(count) == MaxCashback
  {
    if CashbackThreshold <= count < 30 {
      var m := count - CashbackThreshold;
      var r := JsRound(m * 1350, 27);
      assert 54 * r <= 2700 * m + 27 < 54 * (r + 1);
      assert r == 50 * m;
    }
  }

  /** More referrals never mean less cashback. */
  lemma CashbackMonotone(a: int, b: int)
    requires a <= b
    ensures Cashback(a) <= Cashback(b)
  {
    CashbackClosedForm(a);
    CashbackClosedForm(b);
  }

  /* ---------------------------------------------------------------------------------- */
  /* Users                                                                              */
  /* ---------------------------------------------------------------------------------- */

  class User {
    const id: nat
    var firstName: string
    var lastName: string
    var phone: string
    var address: string
    var dateOfBirth: string
    var registrationStatus: string
    var paymentStatus: string
    var referredBy: Option<nat>
    var referralDiscount: int
    var totalDiscount: int
    var finalAmount: int
    var referralCount: int
    var cashbackEligible: bool
    var cashbackAmount: int

    /** `User.create({...})` with the price registerUser computed. The referral count and
        cashback fields start at 0 / false / 0. */
    constructor (id: nat, firstName: string, lastName: string, phone: string, address: string,
                 dateOfBirth: string, referredBy: Option<nat>, referralDiscount: int, finalAmount: int)
      ensures this.id == id && this.firstName == firstName && this.lastName == lastName
      ensures this.phone == phone && this.address == address && this.dateOfBirth == dateOfBirth
      ensures this.referredBy == referredBy && this.referralDiscount == referralDiscount
      ensures this.totalDiscount == referralDiscount && this.finalAmount == finalAmount
      ensures referralCount == 0 && !cashbackEligible && cashbackAmount == 0
    {
      this.id, this.firstName, this.lastName, this.phone := id, firstName, lastName, phone;
      this.address, this.dateOfBirth := address, dateOfBirth;
      registrationStatus, paymentStatus := "pending", "pending";
      this.referredBy, this.referralDiscount, this.totalDiscount := referredBy, referralDiscount, referralDiscount;
      this.finalAmount := finalAmount;
      referralCount, cashbackEligible, cashbackAmount := 0, false, 0;
    }
  }

  /* ---------------------------------------------------------------------------------- */
  /* registerUser                                                                       */
  /* ---------------------------------------------------------------------------------- */

  datatype RegisterUserError =
    | UserExists            // a user with the email exists
    | InvalidReferralCode   // no user has the code
    | ReferrerBelowThreshold // the referrer has fewer than 30 referrals

  /** The price registerUser settles on. */
  datatype Pricing = Pricing(referralDiscount: int, finalAmount: int)

  /** The price of registerUser, given the referral code (empty when none is sent) and
      the referral count of the user holding it, when there is one. */
  function RegisterPricing(referralCode: string, referrerCount: Option<int>): (r: Result<Pricing, RegisterUserError>)
    ensures referralCode == "" ==> r == Success(Pricing(0, BaseFee))
    ensures referralCode != "" && referrerCount.None? ==> r == Failure(InvalidReferralCode)
    ensures r.Success? ==> r.value.referralDiscount + r.value.finalAmount == BaseFee
    ensures r.Success? && referralCode != "" ==>
              referrerCount.value >= RegisterThreshold && r.value.referralDiscount == ReferralDiscount
  {
    if referralCode == "" then Success(Pricing(0, BaseFee))
    else if referrerCount.None? then Failure(InvalidReferralCode)
    else if referrerCount.value < RegisterThreshold then Failure(ReferrerBelowThreshold)
    else Success(Pricing(ReferralDiscount, BaseFee - ReferralDiscount))
  }

  /** registerUser: refuses a taken email, an unknown code and a referrer below 30
      referrals; otherwise creates the user at the computed price and, with a referral,
      counts it for the referrer and grants the cashback on first eligibility. The lookup
      by code found `referrer` exactly when `referrerFound`. */
  method RegisterUser(emailTaken: bool, referralCode: string, referrer: User, referrerFound: bool,
                      newId: nat, firstName: string, lastName: string, phone: string, address: string,
                      dateOfBirth: string)
    returns (result: Result<User, RegisterUserError>)
    modifies referrer`referralCount, referrer`cashbackEligible, referrer`cashbackAmount
    ensures var pricing := RegisterPricing(referralCode, if referrerFound then Some(old(referrer.referralCount)) else None);
            && (result.Failure? <==> emailTaken || pricing.Failure?)
            && (result.Failure? ==> result.error == if emailTaken then UserExists else pricing.error)
            && (result.Success? ==>
                  var u := result.value;
                  && fresh(u) && u.id == newId
                  && u.referralDiscount == pricing.value.referralDiscount
                  && u.finalAmount == pricing.value.finalAmount
                  && u.referredBy == (if referralCode == "" then None else Some(referrer.id)))
    ensures result.Failure? || referralCode == "" ==>
              && referrer.referralCount == old(referrer.referralCount)
              && referrer.cashbackEligible == old(referrer.cashbackEligible)
              && referrer.cashbackAmount == old(referrer.cashbackAmount)
    ensures result.Success? && referralCode != "" ==>
              && referrer.referralCount == old(referrer.referralCount) + 1
              && referrer.cashbackEligible
              && referrer.cashbackAmount ==
                   (if old(referrer.cashbackEligible) then old(referrer.cashbackAmount) else MaxCashback)
  {
    if emailTaken {
      return Failure(UserExists);
    }
    var referredBy: Option<nat> := None;
    var referralDiscount := 0;
    var finalAmount := BaseFee;
    if referralCode != "" {
      if !referrerFound {
        return Failure(InvalidReferralCode);
      }
      if referrer.referralCount < RegisterThreshold {
        return Failure(ReferrerBelowThreshold);
      }
      referredBy := Some(referrer.id);
      referralDiscount := ReferralDiscount;
      finalAmount := finalAmount - referralDiscount;
    }
    var user := new User(newId, firstName, lastName, phone, address, dateOfBirth, referredBy, referralDiscount, finalAmount);
    if referredBy.Some? {
      referrer.referralCount := referrer.referralCount + 1;
      if referrer.referralCount >= CashbackThreshold && !referrer.cashbackEligible {
        referrer.cashbackEligible := true;
        CashbackClosedForm(referrer.referralCount);
        referrer.cashbackAmount := Cashback(referrer.referralCount);
      }
    }
    return Success(user);
  }

  /** A referrer's count only grows through registerUser, which needs 30 referrals
      first: a referrer below 30 stays where it is, whatever the request. */
  lemma ReferralCountStuckBelowThreshold(count: int, referralCode: string)
    requires count < RegisterThreshold && referralCode != ""
    ensures RegisterPricing(referralCode, Some(count)) == Failure(ReferrerBelowThreshold)
  {
  }

  /* ---------------------------------------------------------------------------------- */
  /* validateReferralCode                                                               */
  /* ---------------------------------------------------------------------------------- */

  /** The responses of validateReferralCode. */
  datatype ReferralCheck =
    | CodeRequired
    | UnknownCode
    | Insufficient(referralCount: int, requiredReferrals: int, discount: int, finalAmount: int)
    | Valid(referralCount: int, discount: int, finalAmount: int, originalAmount: int)

  /** validateReferralCode over the code and the referral count of its holder. */
  function ValidateReferralCode(referralCode: string, referrerCount: Option<int>): (r: ReferralCheck)
    ensures r.Valid? <==> referralCode != "" && referrerCount.Some? && referrerCount.value >= ValidateThreshold
    ensures r.Valid? ==> r.discount == ReferralDiscount && r.discount + r.finalAmount == r.originalAmount == BaseFee
    ensures r.Insufficient? ==> r.discount == 0 && r.finalAmount == BaseFee && r.referralCount < r.requiredReferrals
  {
    if referralCode == "" then CodeRequired
    else if referrerCount.None? then UnknownCode
    else if referrerCount.value < ValidateThreshold then
      Insufficient(referrerCount.value, ValidateThreshold, 0, BaseFee)
    else Valid(referrerCount.value, ReferralDiscount, BaseFee - ReferralDiscount, BaseFee)
  }

  /** The two handlers disagree: a code whose holder has 3 to 29 referrals is quoted as
      valid at 1450 by validateReferralCode and refused by registerUser; from 30 on they
      agree on the price. */
  lemma ThresholdMismatch(referralCode: string, count: int)
    requires referralCode != ""
    ensures ValidateThreshold <= count < RegisterThreshold ==>
              ValidateReferralCode(referralCode, Some(count)).Valid?
              && RegisterPricing(referralCode, Some(count)) == Failure(ReferrerBelowThreshold)
    ensures count >= RegisterThreshold ==>
              var quote := ValidateReferralCode(referralCode, Some(count));
              var price := RegisterPricing(referralCode, Some(count));
              quote.Valid? && price.Success? && quote.finalAmount == price.value.finalAmount
    ensures count < ValidateThreshold ==>
              !ValidateReferralCode(referralCode, Some(count)).Valid? && RegisterPricing(referralCode, Some(count)).Failure?
  {
  }

  /* ---------------------------------------------------------------------------------- */
  /* updateUserProfile and updateUserStatus                                             */
  /* ---------------------------------------------------------------------------------- */

  /** `given || current`: a non-empty value replaces the current one. */
  function Merge(current: string, given: string): (r: string)
    ensures r == given || r == current
    ensures r == "" <==> given == "" && current == ""
  {
    if given != "" then given else current
  }

  /** Merging is idempotent and an empty value keeps the field. */
  lemma MergeIdempotent(current: string, given: string)
    ensures Merge(Merge(current, given), given) == Merge(current, given)
    ensures Merge(current, "") == current
    ensures given != "" ==> Merge(current, given) == given
  {
  }

  /** updateUserProfile: each of the five profile fields takes the given value when it is
      non-empty and keeps its value otherwise; nothing else changes. */
  method UpdateUserProfile(u: User, firstName: string, lastName: string, phone: string,
                           address: string, dateOfBirth: string)
    modifies u`firstName, u`lastName, u`phone, u`address, u`dateOfBirth
    ensures u.firstName == Merge(old(u.firstName), firstName)
    ensures u.lastName == Merge(old(u.lastName), lastName)
    ensures u.phone == Merge(old(u.phone), phone)
    ensures u.address == Merge(old(u.address), address)
    ensures u.dateOfBirth == Merge(old(u.dateOfBirth), dateOfBirth)
  {
    u.firstName := if firstName != "" then firstName else u.firstName;
    u.lastName := if lastName != "" then lastName else u.lastName;
    u.phone := if phone != "" then phone else u.phone;
    u.address := if address != "" then address else u.address;
    u.dateOfBirth := if dateOfBirth != "" then dateOfBirth else u.dateOfBirth;
  }

  /** updateUserStatus: sets only the statuses supplied. */
  method UpdateUserStatus(u: User, registrationStatus: string, paymentStatus: string)
    modifies u`registrationStatus, u`paymentStatus
    ensures u.registrationStatus == Merge(old(u.registrationStatus), registrationStatus)
    ensures u.paymentStatus == Merge(old(u.paymentStatus), paymentStatus)
  {
    if registrationStatus != "" {
      u.registrationStatus := registrationStatus;
    }
    if paymentStatus != "" {
      u.paymentStatus := paymentStatus;
    }
  }
}
