/** The Users table and the account operations that change it: creating a user
    (name, email, password and role required, one non-deleted account per email)
    and the two-step password reset by one-time code (request stores a code and an
    expiry, verify checks them in a fixed order, then sets the new password and
    clears both). Hashing, the random digits of a code and the mail service are
    parameters; time is a whole number of seconds. */
module Accounts {
  import opened Common
  import opened Text

  /** One row of the Users table. */
  datatype User = User(id: int, name: string, email: string, password: string, role: string,
                       otpCode: Option<string>, expiredOtp: Option<int>, isDeleted: bool)

  /** A reply of the password-reset routes: a message or an error, with its status. */
  datatype Reply = Message(status: int, message: string) | Error(status: int, error: string)

  /** A reply of user creation: the echoed account (201) or an error. */
  datatype CreateReply = UserCreated(name: string, email: string, role: string) | Refused(status: int, error: string)

  /** Seconds an OTP stays valid (fifteen minutes). */
  const OtpLifetime := 900

  /** Python's message for `None < datetime`, raised when a row has a code but no expiry. */
  const NoneComparison := "'<' not supported between instances of 'NoneType' and 'datetime.datetime'"

  /** The row answers `WHERE email = %s AND is_deleted = FALSE`. */
  predicate ActiveWith(u: User, email: string)
  {
    u.email == email && !u.isDeleted
  }

  /** The row a `fetchone()` after that query returns: the first active row with the email. */
  function ActiveIndex(rows: seq<User>, email: string): (r: Option<nat>)
    ensures r.None? <==> forall i :: 0 <= i < |rows| ==> !ActiveWith(rows[i], email)
    ensures r.Some? ==> r.value < |rows| && ActiveWith(rows[r.value], email)
    ensures r.Some? ==> forall i :: 0 <= i < r.value ==> !ActiveWith(rows[i], email)
  {
    if rows == [] then None
    else if ActiveWith(rows[0], email) then Some(0)
    else
      var r := ActiveIndex(rows[1..], email);
      if r.None? then None else Some(r.value + 1)
  }

  /** No two non-deleted users share an email. */
  predicate UniqueActiveEmails(rows: seq<User>)
  {
    forall i, j :: 0 <= i < j < |rows| && !rows[i].isDeleted && !rows[j].isDeleted ==> rows[i].email != rows[j].email
  }

  /** Two tables with the same emails and deletion flags, row by row. */
  predicate SameAccounts(a: seq<User>, b: seq<User>)
  {
    |a| == |b| && forall i :: 0 <= i < |a| ==> a[i].email == b[i].email && a[i].isDeleted == b[i].isDeleted
  }

  // ---------------------------------------------------------------- OTP codes

  predicate IsDigits(s: string)
  {
    forall i :: 0 <= i < |s| ==> '0' <= s[i] <= '9'
  }

  /** `''.join(random.choices(string.digits, k=6))`, given the six random picks. */
  function GenerateOtp(draws: seq<nat>): (otp: string)
    requires |draws| == 6 && forall i :: 0 <= i < 6 ==> draws[i] < 10
    ensures |otp| == 6 && IsDigits(otp)
    ensures forall i :: 0 <= i < 6 ==> otp[i] == "0123456789"[draws[i]]
  {
    seq(6, i requires 0 <= i < 6 => Digit(draws[i]))
  }

  /** Every six-digit string is a possible code. */
  lemma {:induction false} EveryCodePossible(s: string)
    requires |s| == 6 && IsDigits(s)
    ensures exists draws: seq<nat> :: |draws| == 6 && (forall i :: 0 <= i < 6 ==> draws[i] < 10) && GenerateOtp(draws) == s
  {
    var draws: seq<nat> := seq(6, i requires 0 <= i < 6 => (s[i] as int - '0' as int) as nat);
    forall i | 0 <= i < 6
      ensures Digit(draws[i]) == s[i]
    {
      DigitValue(s[i]);
    }
    assert GenerateOtp(draws) == s;
  }

  lemma {:induction false} DigitValue(c: char)
    requires '0' <= c <= '9'
    ensures Digit((c as int - '0' as int) as nat) == c
  {
    var d := c as int - '0' as int;
    assert d == 0 || d == 1 || d == 2 || d == 3 || d == 4 || d == 5 || d == 6 || d == 7 || d == 8 || d == 9;
  }

  // ------------------------------------------------------------ table updates

  /** `UPDATE Users SET otp_code = %s, expired_otp = %s WHERE email = %s` (deleted rows too). */
  function WithOtp(rows: seq<User>, email: string, otp: string, expiry: int): (r: seq<User>)
    ensures |r| == |rows|
    ensures forall i :: 0 <= i < |rows| ==>
      r[i] == if rows[i].email == email then rows[i].(otpCode := Some(otp), expiredOtp := Some(expiry)) else rows[i]
  {
    seq(|rows|, i requires 0 <= i < |rows| =>
      if rows[i].email == email then rows[i].(otpCode := Some(otp), expiredOtp := Some(expiry)) else rows[i])
  }

  /** `UPDATE Users SET password = %s, otp_code = NULL, expired_otp = NULL WHERE id = %s`. */
  function WithNewPassword(rows: seq<User>, id: int, hashed: string): (r: seq<User>)
    ensures |r| == |rows|
    ensures forall i :: 0 <= i < |rows| ==>
      r[i] == if rows[i].id == id then rows[i].(password := hashed, otpCode := None, expiredOtp := None) else rows[i]
  {
    seq(|rows|, i requires 0 <= i < |rows| =>
      if rows[i].id == id then rows[i].(password := hashed, otpCode := None, expiredOtp := None) else rows[i])
  }

  // ---------------------------------------------------------- the operations

  /** Creating a user: the reply and the table afterwards. `hash` is bcrypt with the
      salt drawn for this call (or the exception it raised); `insertError` is the
      exception the INSERT raises, if any; `newId` is the id the table assigns. */
  function CreateOutcome(rows: seq<User>, newId: int, name: Option<string>, email: Option<string>,
                         password: Option<string>, role: Option<string>,
                         hash: string -> Result<string, string>, insertError: Option<string>)
    : (CreateReply, seq<User>)
  {
    if !(Given(name) && Given(email) && Given(password) && Given(role)) then
      (Refused(400, "Missing required fields"), rows)
    else
      match hash(password.value)
      case Err(e) => (Refused(500, "Password hashing failed: " + e), rows)
      case Ok(hashed) =>
        if ActiveIndex(rows, email.value).Some? then (Refused(409, "Email already exists"), rows)
        else if insertError.Some? then (Refused(500, "Database error: " + insertError.value), rows)
        else
          (UserCreated(name.value, email.value, role.value),
           rows + [User(newId, name.value, email.value, hashed, role.value, None, None, false)])
  }

  /** Requesting a reset code: the reply and the table afterwards. `mailError` is the
      exception the mail service raised, if any. */
  function RequestOutcome(rows: seq<User>, email: Option<string>, otp: string, now: int, mailError: Option<string>)
    : (Reply, seq<User>)
  {
    if !Given(email) then (Error(400, "Email is required"), rows)
    else if ActiveIndex(rows, email.value).None? then (Error(404, "User not found"), rows)
    else if mailError.Some? then (Error(500, "Failed to send email: " + mailError.value), rows)
    else (Message(200, "OTP sent successfully to your email"), WithOtp(rows, email.value, otp, now + OtpLifetime))
  }

  /** Verifying a code and setting the new password: the reply and the table afterwards.
      `hash` is bcrypt with the salt drawn for this call, or the exception it raised,
      which the handler answers with 500 and a rollback. */
  function VerifyOutcome(rows: seq<User>, email: Option<string>, otp: Option<string>, newPassword: Option<string>,
                         now: int, hash: string -> Result<string, string>)
    : (Reply, seq<User>)
  {
    if !(Given(email) && Given(otp) && Given(newPassword)) then
      (Error(400, "Email, OTP, and new password are required"), rows)
    else
      match ActiveIndex(rows, email.value)
      case None => (Error(404, "User not found"), rows)
      case Some(i) =>
        var u := rows[i];
        if !Given(u.otpCode) || u.otpCode.value != otp.value then (Error(400, "Invalid OTP"), rows)
        else if u.expiredOtp.None? then (Error(500, "Server error: " + NoneComparison), rows)
        else if u.expiredOtp.value < now then (Error(400, "OTP has expired"), rows)
        else
          match hash(newPassword.value)
          case Err(e) => (Error(500, "Server error: " + e), rows)
          case Ok(hashed) => (Message(200, "Password reset successful"), WithNewPassword(rows, u.id, hashed))
  }

  /** The Users table as the account routes see it. */
  class UserTable {
    var rows: seq<User>

    constructor(initial: seq<User>)
      ensures rows == initial
    {
      rows := initial;
    }

    /** `POST /api/users` */
    method CreateUser(newId: int, name: Option<string>, email: Option<string>, password: Option<string>,
                      role: Option<string>, hash: string -> Result<string, string>, insertError: Option<string>)
      returns (reply: CreateReply)
      modifies this
      ensures (reply, rows) == CreateOutcome(old(rows), newId, name, email, password, role, hash, insertError)
    {
      if !Given(name) || !Given(email) || !Given(password) || !Given(role) {
        return Refused(400, "Missing required fields");
      }
      var hashed := hash(password.value);
      if hashed.Err? {
        return Refused(500, "Password hashing failed: " + hashed.error);
      }
      var existing := ActiveIndex(rows, email.value);
      if existing.Some? {
        return Refused(409, "Email already exists");
      }
      if insertError.Some? {
        return Refused(500, "Database error: " + insertError.value);
      }
      rows := rows + [User(newId, name.value, email.value, hashed.value, role.value, None, None, false)];
      reply := UserCreated(name.value, email.value, role.value);
    }

    /** `POST /api/forgot-password/request`; `draws` are the random digit picks. */
    method RequestReset(email: Option<string>, draws: seq<nat>, now: int, mailError: Option<string>)
      returns (reply: Reply)
      requires |draws| == 6 && forall i :: 0 <= i < 6 ==> draws[i] < 10
      modifies this
      ensures (reply, rows) == RequestOutcome(old(rows), email, GenerateOtp(draws), now, mailError)
    {
      if !Given(email) {
        return Error(400, "Email is required");
      }
      var user := ActiveIndex(rows, email.value);
      if user.None? {
        return Error(404, "User not found");
      }
      var otp := GenerateOtp(draws);
      var expiry := now + OtpLifetime;
      if mailError.Some? {
        return Error(500, "Failed to send email: " + mailError.value);
      }
      rows := WithOtp(rows, email.value, otp, expiry);
      reply := Message(200, "OTP sent successfully to your email");
    }

    /** `POST /api/forgot-password/verify` */
    method VerifyOtp(email: Option<string>, otp: Option<string>, newPassword: Option<string>, now: int,
                     hash: string -> Result<string, string>)
      returns (reply: Reply)
      modifies this
      ensures (reply, rows) == VerifyOutcome(old(rows), email, otp, newPassword, now, hash)
    {
      if !Given(email) || !Given(otp) || !Given(newPassword) {
        return Error(400, "Email, OTP, and new password are required");
      }
      var found := ActiveIndex(rows, email.value);
      if found.None? {
        return Error(404, "User not found");
      }
      var u := rows[found.value];
      if !Given(u.otpCode) || u.otpCode.value != otp.value {
        return Error(400, "Invalid OTP");
      }
      if u.expiredOtp.None? {
        return Error(500, "Server error: " + NoneComparison);
      }
      if u.expiredOtp.value < now {
        return Error(400, "OTP has expired");
      }
      var hashed := hash(newPassword.value);
      if hashed.Err? {
        return Error(500, "Server error: " + hashed.error);
      }
      rows := WithNewPassword(rows, u.id, hashed.value);
      reply := Message(200, "Password reset successful");
    }
  }

  // ---------------------------------------------------------------- lemmas

  /** Tables with the same accounts answer the same lookups. */
  lemma {:induction false} SameAccountsLookup(a: seq<User>, b: seq<User>, email: string)
    requires SameAccounts(a, b)
    ensures ActiveIndex(a, email) == ActiveIndex(b, email)
    decreases |a|
  {
    if a != [] {
      assert SameAccounts(a[1..], b[1..]) by {
        forall i | 0 <= i < |a[1..]|
          ensures a[1..][i].email == b[1..][i].email && a[1..][i].isDeleted == b[1..][i].isDeleted
        {
          assert a[1..][i] == a[i + 1];
        }
      }
      SameAccountsLookup(a[1..], b[1..], email);
    }
  }

  /** Tables with the same accounts are both free of duplicates or neither is. */
  lemma {:induction false} SameAccountsUnique(a: seq<User>, b: seq<User>)
    requires SameAccounts(a, b)
    ensures UniqueActiveEmails(a) <==> UniqueActiveEmails(b)
  {
  }

  /** User creation: it succeeds exactly when every field is given, hashing works, no
      active user has the email and the insert goes through; success appends one row
      holding the hash (not the plain password), every failure leaves the table alone. */
  lemma {:induction false} CreateOutcomes(rows: seq<User>, newId: int, name: Option<string>, email: Option<string>,
                                          password: Option<string>, role: Option<string>,
                                          hash: string -> Result<string, string>, insertError: Option<string>)
    ensures var (reply, after) := CreateOutcome(rows, newId, name, email, password, role, hash, insertError);
      && (reply.UserCreated? <==>
            Given(name) && Given(email) && Given(password) && Given(role) && hash(password.value).Ok?
            && (forall i :: 0 <= i < |rows| ==> !ActiveWith(rows[i], email.value)) && insertError.None?)
      && (reply.UserCreated? ==>
            reply == UserCreated(name.value, email.value, role.value)
            && after == rows + [User(newId, name.value, email.value, hash(password.value).value, role.value, None, None, false)])
      && (reply.Refused? ==> after == rows)
  {
  }

  /** The error precedence of user creation: missing fields first, then hashing, then
      the duplicate check, then the insert. */
  lemma {:induction false} CreateErrors(rows: seq<User>, newId: int, name: Option<string>, email: Option<string>,
                                        password: Option<string>, role: Option<string>,
                                        hash: string -> Result<string, string>, insertError: Option<string>)
    ensures var reply := CreateOutcome(rows, newId, name, email, password, role, hash, insertError).0;
      && (!(Given(name) && Given(email) && Given(password) && Given(role)) ==> reply == Refused(400, "Missing required fields"))
      && (Given(name) && Given(email) && Given(password) && Given(role) && hash(password.value).Err? ==>
            reply == Refused(500, "Password hashing failed: " + hash(password.value).error))
      && (Given(name) && Given(email) && Given(password) && Given(role) && hash(password.value).Ok?
          && (exists i :: 0 <= i < |rows| && ActiveWith(rows[i], email.value)) ==>
            reply == Refused(409, "Email already exists"))
  {
  }

  /** Creating a user keeps emails unique among non-deleted users. */
  lemma {:induction false} CreateKeepsUnique(rows: seq<User>, newId: int, name: Option<string>, email: Option<string>,
                                             password: Option<string>, role: Option<string>,
                                             hash: string -> Result<string, string>, insertError: Option<string>)
    requires UniqueActiveEmails(rows)
    ensures UniqueActiveEmails(CreateOutcome(rows, newId, name, email, password, role, hash, insertError).1)
  {
    var (reply, after) := CreateOutcome(rows, newId, name, email, password, role, hash, insertError);
    if reply.UserCreated? {
      assert ActiveIndex(rows, email.value).None?;
      forall i, j | 0 <= i < j < |after| && !after[i].isDeleted && !after[j].isDeleted
        ensures after[i].email != after[j].email
      {
        if j == |rows| {
          assert !ActiveWith(rows[i], email.value);
        } else {
          assert after[i] == rows[i] && after[j] == rows[j];
        }
      }
    }
  }

  /** Requesting a code: it succeeds exactly when an email is given, an active user
      has it and the mail goes out; success stores the code and an expiry fifteen
      minutes ahead on every row with that email and nowhere else, and every failure
      stores nothing (in particular a failed mail leaves the old code in place). */
  lemma {:induction false} RequestOutcomes(rows: seq<User>, email: Option<string>, otp: string, now: int,
                                           mailError: Option<string>)
    ensures var (reply, after) := RequestOutcome(rows, email, otp, now, mailError);
      && (reply.Message? <==>
            Given(email) && (exists i :: 0 <= i < |rows| && ActiveWith(rows[i], email.value)) && mailError.None?)
      && (reply.Error? ==> after == rows)
      && (!Given(email) ==> reply == Error(400, "Email is required"))
      && (Given(email) && (forall i :: 0 <= i < |rows| ==> !ActiveWith(rows[i], email.value)) ==>
            reply == Error(404, "User not found"))
      && (reply.Message? ==> |after| == |rows| && forall i :: 0 <= i < |rows| ==>
            if rows[i].email == email.value
            then after[i].otpCode == Some(otp) && after[i].expiredOtp == Some(now + OtpLifetime)
                 && after[i] == rows[i].(otpCode := after[i].otpCode, expiredOtp := after[i].expiredOtp)
            else after[i] == rows[i])
  {
  }

  /** The code is compared before the expiry: a missing or different stored code is
      "Invalid OTP" however late the request. */
  lemma {:induction false} CodeCheckedFirst(rows: seq<User>, email: string, otp: Option<string>,
                                            newPassword: Option<string>, now: int, hash: string -> Result<string, string>)
    requires Given(otp) && Given(newPassword) && email != ""
    requires ActiveIndex(rows, email).Some?
    requires var u := rows[ActiveIndex(rows, email).value]; !Given(u.otpCode) || u.otpCode.value != otp.value
    ensures VerifyOutcome(rows, Some(email), otp, newPassword, now, hash) == (Error(400, "Invalid OTP"), rows)
  {
  }

  /** A matching code is accepted up to and including its expiry instant (when the
      new password hashes), and refused with "OTP has expired" from the next second on. */
  lemma {:induction false} ExpiryBoundary(rows: seq<User>, email: string, otp: string, newPassword: string,
                                          now: int, hash: string -> Result<string, string>)
    requires otp != "" && newPassword != "" && email != ""
    requires ActiveIndex(rows, email).Some?
    requires var u := rows[ActiveIndex(rows, email).value]; u.otpCode == Some(otp) && u.expiredOtp.Some?
    ensures var expiry := rows[ActiveIndex(rows, email).value].expiredOtp.value;
      (VerifyOutcome(rows, Some(email), Some(otp), Some(newPassword), now, hash).0.Message?
       <==> now <= expiry && hash(newPassword).Ok?)
    ensures var expiry := rows[ActiveIndex(rows, email).value].expiredOtp.value;
      now > expiry ==> VerifyOutcome(rows, Some(email), Some(otp), Some(newPassword), now, hash).0 == Error(400, "OTP has expired")
  {
  }

  /** Verifying: success sets the new hash and clears the code and its expiry on the
      found user's rows (matched by id) and nowhere else; a hashing failure past the
      checks is a 500; every failure changes nothing. */
  lemma {:induction false} VerifyOutcomes(rows: seq<User>, email: Option<string>, otp: Option<string>,
                                          newPassword: Option<string>, now: int, hash: string -> Result<string, string>)
    ensures var (reply, after) := VerifyOutcome(rows, email, otp, newPassword, now, hash);
      && (reply.Error? ==> after == rows)
      && (!(Given(email) && Given(otp) && Given(newPassword)) ==> reply.Error? && reply.status == 400)
      && (reply.Message? ==>
            Given(email) && Given(otp) && Given(newPassword) && ActiveIndex(rows, email.value).Some?
            && var u := rows[ActiveIndex(rows, email.value).value];
               u.otpCode == otp && u.expiredOtp.Some? && now <= u.expiredOtp.value
               && hash(newPassword.value).Ok?
               && |after| == |rows|
               && forall i :: 0 <= i < |rows| ==>
                    after[i] == if rows[i].id == u.id
                                then rows[i].(password := hash(newPassword.value).value, otpCode := None, expiredOtp := None)
                                else rows[i])
      && (Given(email) && Given(otp) && Given(newPassword) && ActiveIndex(rows, email.value).Some?
          && rows[ActiveIndex(rows, email.value).value].otpCode == otp
          && rows[ActiveIndex(rows, email.value).value].expiredOtp.Some?
          && now <= rows[ActiveIndex(rows, email.value).value].expiredOtp.value
          && hash(newPassword.value).Err? ==>
            reply == Error(500, "Server error: " + hash(newPassword.value).error))
  {
  }

  /** Requesting a code touches no email or deletion flag, so lookups and the
      uniqueness of active emails are as before. */
  lemma {:induction false} RequestKeepsAccounts(rows: seq<User>, email: Option<string>, otp: string, now: int,
                                                mailError: Option<string>)
    ensures SameAccounts(rows, RequestOutcome(rows, email, otp, now, mailError).1)
    ensures UniqueActiveEmails(rows) ==> UniqueActiveEmails(RequestOutcome(rows, email, otp, now, mailError).1)
  {
    var after := RequestOutcome(rows, email, otp, now, mailError).1;
    if after != rows {
      assert after == WithOtp(rows, email.value, otp, now + OtpLifetime);
    }
    SameAccountsUnique(rows, after);
  }

  /** Verifying a code touches no email or deletion flag either. */
  lemma {:induction false} VerifyKeepsAccounts(rows: seq<User>, email: Option<string>, otp: Option<string>,
                                               newPassword: Option<string>, now: int, hash: string -> Result<string, string>)
    ensures SameAccounts(rows, VerifyOutcome(rows, email, otp, newPassword, now, hash).1)
    ensures UniqueActiveEmails(rows) ==> UniqueActiveEmails(VerifyOutcome(rows, email, otp, newPassword, now, hash).1)
  {
    var (reply, after) := VerifyOutcome(rows, email, otp, newPassword, now, hash);
    if reply.Message? {
      var u := rows[ActiveIndex(rows, email.value).value];
      assert after == WithNewPassword(rows, u.id, hash(newPassword.value).value);
    }
    SameAccountsUnique(rows, after);
  }

  /** A code that was just used cannot be used again: the second verify with the same
      email and code finds the code cleared and answers "Invalid OTP". */
  lemma {:induction false} ReplayFails(rows: seq<User>, email: string, otp: string, newPassword: string,
                                       now: int, later: int, hash: string -> Result<string, string>, again: string -> Result<string, string>)
    requires VerifyOutcome(rows, Some(email), Some(otp), Some(newPassword), now, hash).0.Message?
    ensures var after := VerifyOutcome(rows, Some(email), Some(otp), Some(newPassword), now, hash).1;
      VerifyOutcome(after, Some(email), Some(otp), Some(newPassword), later, again) == (Error(400, "Invalid OTP"), after)
  {
    var after := VerifyOutcome(rows, Some(email), Some(otp), Some(newPassword), now, hash).1;
    var i := ActiveIndex(rows, email).value;
    VerifyKeepsAccounts(rows, Some(email), Some(otp), Some(newPassword), now, hash);
    SameAccountsLookup(rows, after, email);
    assert after[i].otpCode == None;
  }

  /** A code obtained by a successful request is accepted by a verify for the same
      email up to fifteen minutes later (when hashing the new password works). */
  lemma {:induction false} RequestThenVerify(rows: seq<User>, email: string, otp: string, now: int, later: int,
                                             newPassword: string, hash: string -> Result<string, string>)
    requires otp != "" && newPassword != "" && hash(newPassword).Ok?
    requires RequestOutcome(rows, Some(email), otp, now, None).0.Message?
    requires later <= now + OtpLifetime
    ensures var after := RequestOutcome(rows, Some(email), otp, now, None).1;
      VerifyOutcome(after, Some(email), Some(otp), Some(newPassword), later, hash).0
        == Message(200, "Password reset successful")
  {
    var after := RequestOutcome(rows, Some(email), otp, now, None).1;
    RequestKeepsAccounts(rows, Some(email), otp, now, None);
    SameAccountsLookup(rows, after, email);
    var i := ActiveIndex(rows, email).value;
    assert after[i].otpCode == Some(otp) && after[i].expiredOtp == Some(now + OtpLifetime);
  }
}
