/** The simulated bank-account verification: the requester re-supplies an
    Aadhaar number, and the account is marked verified when it equals the
    one stored for the user. The user store is a map from user id to record. */
module BankVerification {

  datatype Option<T> = None | Some(value: T)

  /** A stored user record. */
  datatype User = User(
    firstName: string,
    lastName: string,
    email: string,
    phone: string,
    aadhaarNumber: string,
    password: string,
    bankAccountStatus: string,
    insuranceStatus: string)

  /** The account status a new user starts with. */
  const PendingStatus := "pending"
  const VerifiedStatus := "verified"
  /** The status a failed verification reply carries. */
  const FailedStatus := "failed"

  /** The three answers of the verification request. */
  datatype Outcome = UserNotFound | Verified | Failed

  /** The status string a successful or failed reply carries. */
  function ReplyStatus(o: Outcome): (s: string)
    requires o != UserNotFound
    ensures o == Verified ==> s == VerifiedStatus
    ensures o == Failed ==> s == FailedStatus
    ensures s == VerifiedStatus <==> o == Verified
  {
    if o == Verified then VerifiedStatus else FailedStatus
  }

  /** Looks the user up, compares the supplied number (absent when the
      request did not carry one as a string) with the stored one, and on a
      match sets the user's bank-account status to verified. */
  function VerifyBankAccount(users: map<string, User>, userId: string, supplied: Option<string>)
    : (r: (Outcome, map<string, User>))
    ensures r.0 == UserNotFound <==> userId !in users
    ensures r.0 == Verified <==> userId in users && supplied == Some(users[userId].aadhaarNumber)
    ensures r.0 != Verified ==> r.1 == users
    ensures r.0 == Verified ==>
      r.1.Keys == users.Keys
      && r.1[userId].bankAccountStatus == VerifiedStatus
      && r.1[userId] == users[userId].(bankAccountStatus := VerifiedStatus)
      && forall id :: id in users && id != userId ==> r.1[id] == users[id]
  {
    if userId !in users then (UserNotFound, users)
    else
      var user := users[userId];
      if supplied == Some(user.aadhaarNumber) then
        (Verified, users[userId := user.(bankAccountStatus := VerifiedStatus)])
      else (Failed, users)
  }

  /** Verifying an account a second time with the same number succeeds
      again and changes nothing further. */
  lemma VerifyIdempotent(users: map<string, User>, userId: string, supplied: Option<string>)
    ensures var (o1, after) := VerifyBankAccount(users, userId, supplied);
      o1 == Verified ==> VerifyBankAccount(after, userId, supplied) == (Verified, after)
  {
    var (o1, after) := VerifyBankAccount(users, userId, supplied);
    if o1 == Verified {
      assert after[userId].aadhaarNumber == users[userId].aadhaarNumber;
      assert after[userId := after[userId].(bankAccountStatus := VerifiedStatus)] == after;
    }
  }

  /** No verification attempt, on any user, resets an account that is
      already verified. */
  lemma VerifiedStaysVerified(users: map<string, User>, userId: string, supplied: Option<string>, id: string)
    requires id in users && users[id].bankAccountStatus == VerifiedStatus
    ensures var (_, after) := VerifyBankAccount(users, userId, supplied);
      id in after && after[id].bankAccountStatus == VerifiedStatus
  {
  }
}
