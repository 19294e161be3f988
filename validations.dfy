/**
 * The explicit rules of the form schemas: length bounds, character classes, the
 * password-strength conjunction, password confirmation, the E.164 phone shape and the
 * enumerations. Lengths are counted in `char`s, which are Unicode scalar values.
 */
module Validations {
  import opened Wrappers
  import opened Text
  import opened MockData

  /** Some character of `s` satisfies `p` (an unanchored one-class regular expression). */
  predicate HasChar(s: string, p: char -> bool) {
    exists k: nat | k < |s| :: p(s[k])
  }

  // ---------------------------------------------------------------------
  // loginSchema
  // ---------------------------------------------------------------------

  /** `[^\s@]+` without its length: no whitespace and no `@`. */
  predicate NoSpaceOrAt(s: string) {
    forall k :: 0 <= k < |s| ==> !IsJsWhitespace(s[k]) && s[k] != '@'
  }

  /** `/^[^\s@]+@[^\s@]+\.[^\s@]+$/`: the dot may be any dot after the `@` that leaves a
      non-empty piece on either side. */
  predicate EmailShape(s: string) {
    exists i: nat, j: nat | 0 < i && i + 1 < j && j + 1 < |s| ::
      s[i] == '@' && s[j] == '.' &&
      NoSpaceOrAt(s[..i]) && NoSpaceOrAt(s[i + 1..j]) && NoSpaceOrAt(s[j + 1..])
  }

  /** `/^[a-zA-Z0-9_]{3,20}$/` */
  predicate UsernameShape(s: string) {
    3 <= |s| <= 20 && AllChars(s, IsWordChar)
  }

  /** loginSchema identifier: `min(1)` and the email-or-username refinement. */
  predicate LoginIdentifierValid(s: string) {
    |s| >= 1 && (EmailShape(s) || UsernameShape(s))
  }

  /** loginSchema password: `min(8)` and `max(100)`. */
  predicate LoginPasswordValid(p: string) {
    8 <= |p| <= 100
  }

  predicate LoginValid(identifier: string, password: string) {
    LoginIdentifierValid(identifier) && LoginPasswordValid(password)
  }

  /** Every `local@domain.tld` whose three pieces are non-empty and free of whitespace and
      `@` has the email shape. */
  lemma EmailShapeOf(local: string, domain: string, tld: string)
    requires |local| > 0 && |domain| > 0 && |tld| > 0
    requires NoSpaceOrAt(local) && NoSpaceOrAt(domain) && NoSpaceOrAt(tld)
    ensures EmailShape(local + "@" + domain + "." + tld)
  {
    var s := local + "@" + domain + "." + tld;
    var i, j := |local|, |local| + 1 + |domain|;
    assert s[..i] == local;
    assert s[i + 1..j] == domain;
    assert s[j + 1..] == tld;
    assert s[i] == '@' && s[j] == '.';
  }

  /** An email-shaped string holds exactly one `@` and no whitespace. */
  lemma EmailShapeHasOneAt(s: string)
    requires EmailShape(s)
    ensures forall k :: 0 <= k < |s| ==> !IsJsWhitespace(s[k])
    ensures exists i :: 0 < i < |s| && s[i] == '@' && forall k :: 0 <= k < |s| && s[k] == '@' ==> k == i
  {
    var i: nat, j: nat :| 0 < i && i + 1 < j && j + 1 < |s| &&
      s[i] == '@' && s[j] == '.' &&
      NoSpaceOrAt(s[..i]) && NoSpaceOrAt(s[i + 1..j]) && NoSpaceOrAt(s[j + 1..]);
    forall k | 0 <= k < |s| && k != i && k != j
      ensures !IsJsWhitespace(s[k]) && s[k] != '@'
    {
      if k < i {
        assert s[k] == s[..i][k];
      } else if k < j {
        assert s[k] == s[i + 1..j][k - (i + 1)];
      } else {
        assert s[k] == s[j + 1..][k - (j + 1)];
      }
    }
  }

  /** The two alternatives never both apply: a username-shaped identifier has no `@`. */
  lemma UsernameIsNotEmail(s: string)
    requires UsernameShape(s)
    ensures !EmailShape(s)
  {
    forall i | 0 <= i < |s| ensures s[i] != '@' {
      assert IsWordChar(s[i]);
    }
  }

  // ---------------------------------------------------------------------
  // registerSchema
  // ---------------------------------------------------------------------

  /** registerSchema username: `min(3)`, `max(20)` and `/^[a-zA-Z0-9_]+$/`. */
  predicate RegisterUsernameValid(s: string) {
    |s| >= 3 && |s| <= 20 && |s| >= 1 && AllChars(s, IsWordChar)
  }

  /** registerSchema password: `min(8)`, an upper-case letter, a lower-case letter, a digit
      and a character outside `[A-Za-z0-9]`. There is no upper bound on the length. */
  predicate StrongPassword(p: string) {
    |p| >= 8 && HasChar(p, IsAsciiUpper) && HasChar(p, IsAsciiLower) && HasChar(p, IsDigit)
    && HasChar(p, c => !IsAlnum(c))
  }

  datatype RegisterInput = RegisterInput(
    username: string, email: string, password: string, confirmPassword: string)

  /** The field a validation error is reported on. */
  datatype RegisterField = UsernameField | EmailField | PasswordField | ConfirmPasswordField

  /** The fields that carry an error for string inputs. The object-level refinement runs
      even when a field check failed, and reports a mismatch on `confirmPassword`. Zod's
      built-in email check is not modelled: its verdict is `emailFormatOk`. */
  function RegisterErrors(input: RegisterInput, emailFormatOk: bool): (errors: set<RegisterField>)
    ensures UsernameField in errors <==> !RegisterUsernameValid(input.username)
    ensures EmailField in errors <==> |input.email| < 1 || !emailFormatOk
    ensures PasswordField in errors <==> !StrongPassword(input.password)
    ensures ConfirmPasswordField in errors <==>
      |input.confirmPassword| < 1 || input.password != input.confirmPassword
  {
    (if RegisterUsernameValid(input.username) then {} else {UsernameField})
    + (if |input.email| >= 1 && emailFormatOk then {} else {EmailField})
    + (if StrongPassword(input.password) then {} else {PasswordField})
    + (if |input.confirmPassword| >= 1 && input.password == input.confirmPassword
       then {} else {ConfirmPasswordField})
  }

  /** An accepted registration has a strong password that equals its confirmation. */
  lemma AcceptedRegistration(input: RegisterInput, emailFormatOk: bool)
    requires RegisterErrors(input, emailFormatOk) == {}
    ensures StrongPassword(input.password) && input.password == input.confirmPassword
    ensures RegisterUsernameValid(input.username) && |input.email| >= 1
  {
    assert PasswordField !in RegisterErrors(input, emailFormatOk);
    assert ConfirmPasswordField !in RegisterErrors(input, emailFormatOk);
    assert UsernameField !in RegisterErrors(input, emailFormatOk);
    assert EmailField !in RegisterErrors(input, emailFormatOk);
  }

  /** A username accepted at registration is also accepted as a login identifier. */
  lemma RegisteredUsernameCanLogIn(u: string)
    requires RegisterUsernameValid(u)
    ensures LoginIdentifierValid(u)
  {
    assert UsernameShape(u);
  }

  /** The register password rule has no upper bound while login refuses more than 100
      characters: a strong password of 101 characters is accepted at registration and can
      never be used to log in. */
  lemma RegisteredPasswordCanBeRefusedAtLogin()
    ensures var p := "Aa1!" + seq(97, _ => 'a');
      StrongPassword(p) && !LoginPasswordValid(p)
  {
    var p := "Aa1!" + seq(97, _ => 'a');
    assert IsAsciiUpper(p[0]) && IsAsciiLower(p[1]) && IsDigit(p[2]) && !IsAlnum(p[3]);
  }

  /** Credentials accepted at registration can log in exactly when the password has at
      most 100 characters. */
  lemma RegisteredCredentialsCanLogIn(input: RegisterInput, emailFormatOk: bool)
    requires RegisterErrors(input, emailFormatOk) == {}
    ensures LoginValid(input.username, input.password) <==> |input.password| <= 100
  {
    AcceptedRegistration(input, emailFormatOk);
    RegisteredUsernameCanLogIn(input.username);
  }

  // ---------------------------------------------------------------------
  // profileSchema
  // ---------------------------------------------------------------------

  /** profileSchema displayName: 2 to 50 characters from `[a-zA-Z0-9\s]`. */
  predicate DisplayNameValid(s: string) {
    2 <= |s| <= 50 && AllChars(s, c => IsAlnum(c) || IsJsWhitespace(c))
  }

  /** `/^\+?[1-9]\d{1,14}$/` */
  predicate E164Shape(s: string) {
    var digits := if |s| > 0 && s[0] == '+' then s[1..] else s;
    2 <= |digits| <= 15 && '1' <= digits[0] <= '9' && AllChars(digits, IsDigit)
  }

  /** profileSchema phone: absent, the empty string, or the E.164 shape. */
  predicate ProfilePhoneValid(phone: Option<string>) {
    phone.None? || phone.value == "" || E164Shape(phone.value)
  }

  /** A display name holding a character other than a letter, a digit or whitespace is
      refused, whatever its length. */
  lemma DisplayNameRefusesSymbols(s: string, k: nat)
    requires k < |s| && !IsAlnum(s[k]) && !IsJsWhitespace(s[k])
    ensures !DisplayNameValid(s)
  {
  }

  /** A valid non-empty phone number is an optional `+` followed by 2 to 15 digits, the
      first of them not zero; and every such string is valid. */
  lemma ProfilePhoneShape(plus: bool, digits: string)
    requires digits == [] || digits[0] != '+'
    ensures var phone := (if plus then "+" else "") + digits;
      ProfilePhoneValid(Some(phone)) <==>
        (phone == "" || (2 <= |digits| <= 15 && AllChars(digits, IsDigit) && digits[0] != '0'))
  {
    var phone := (if plus then "+" else "") + digits;
    if plus {
      assert phone[0] == '+' && phone[1..] == digits;
    } else {
      assert phone == digits;
    }
  }

  /** A number of more than 15 digits is refused, with or without the `+`. */
  lemma LongPhoneRefused(phone: string)
    requires |phone| > 16
    ensures !ProfilePhoneValid(Some(phone))
  {
  }

  // ---------------------------------------------------------------------
  // bookingSchema
  // ---------------------------------------------------------------------

  const Durations: seq<string> := ["1 hour", "2 hours", "3 hours", "4 hours"]

  /** bookingSchema duration: non-empty and one of the four choices. */
  predicate DurationValid(d: string) {
    |d| >= 1 && d in Durations
  }

  /** bookingSchema without its date refinement: every other field non-empty and a valid
      duration. */
  predicate BookingFieldsValid(deviceId: string, gameId: string, date: string, time: string, duration: string) {
    |deviceId| >= 1 && |gameId| >= 1 && |date| >= 1 && |time| >= 1 && DurationValid(duration)
  }

  /** The duration rule accepts exactly the four listed strings. */
  lemma DurationValidExactly(d: string)
    ensures DurationValid(d) <==> d == "1 hour" || d == "2 hours" || d == "3 hours" || d == "4 hours"
  {
  }

  /** The durations stored with the initial bookings (`2h`, `1h`) are not ones the schema
      accepts. */
  lemma InitialDurationsNotAccepted()
    ensures forall b :: b in InitialBookings ==> !DurationValid(b.duration)
  {
    assert InitialBookings[0].duration == "2h" && InitialBookings[1].duration == "1h";
    forall b | b in InitialBookings ensures !DurationValid(b.duration) {
      assert |b.duration| == 2;
    }
  }

  /** None of the initial bookings, re-entered as they are stored, passes the booking
      form's field rules. */
  lemma InitialBookingsFailBookingFields()
    ensures forall b :: b in InitialBookings ==>
      !BookingFieldsValid(b.deviceId, b.gameId, b.date, b.time, b.duration)
  {
    InitialDurationsNotAccepted();
  }

  // ---------------------------------------------------------------------
  // deviceSchema and gameSchema
  // ---------------------------------------------------------------------

  /** `z.enum(['PC', 'PS5', 'XBOX'])` */
  function ParseDeviceType(s: string): (r: Option<DeviceType>)
    ensures r.Some? ==> DeviceTypeName(r.value) == s
    ensures forall t :: DeviceTypeName(t) == s ==> r == Some(t)
  {
    if s == "PC" then Some(PC)
    else if s == "PS5" then Some(PS5)
    else if s == "XBOX" then Some(XBOX)
    else None
  }

  /** `z.enum(['Online', 'Occupied', 'Maintenance', 'Offline'])` */
  function ParseDeviceStatus(s: string): (r: Option<DeviceStatus>)
    ensures r.Some? ==> DeviceStatusName(r.value) == s
    ensures forall t :: DeviceStatusName(t) == s ==> r == Some(t)
  {
    if s == "Online" then Some(Online)
    else if s == "Occupied" then Some(Occupied)
    else if s == "Maintenance" then Some(Maintenance)
    else if s == "Offline" then Some(Offline)
    else None
  }

  /** The untyped form input of the device form. */
  datatype DeviceInput = DeviceInput(
    name: string, deviceType: string, status: string, specs: string, pricePerHour: real)

  /** deviceSchema: the parsed device, or None when a rule fails. The price must be
      positive and at most 10000. */
  function ParseDevice(input: DeviceInput): (r: Option<DeviceData>)
    ensures r.Some? <==>
      3 <= |input.name| <= 50 && ParseDeviceType(input.deviceType).Some? &&
      ParseDeviceStatus(input.status).Some? && |input.specs| >= 10 &&
      0.0 < input.pricePerHour <= 10000.0
    ensures r.Some? ==>
      r.value.name == input.name && DeviceTypeName(r.value.deviceType) == input.deviceType &&
      DeviceStatusName(r.value.status) == input.status && r.value.specs == input.specs &&
      r.value.pricePerHour == input.pricePerHour
  {
    var t := ParseDeviceType(input.deviceType);
    var s := ParseDeviceStatus(input.status);
    if 3 <= |input.name| <= 50 && t.Some? && s.Some? && |input.specs| >= 10
       && 0.0 < input.pricePerHour && input.pricePerHour <= 10000.0
    then Some(DeviceData(input.name, t.value, s.value, input.specs, input.pricePerHour))
    else None
  }

  /** `z.array(z.enum(['PC', 'PS5', 'XBOX']))`: every entry must be a platform name. */
  function ParsePlatforms(names: seq<string>): (r: Option<seq<DeviceType>>)
    ensures r.Some? <==> forall k :: 0 <= k < |names| ==> ParseDeviceType(names[k]).Some?
    ensures r.Some? ==>
      |r.value| == |names| && forall k :: 0 <= k < |names| ==> DeviceTypeName(r.value[k]) == names[k]
    decreases |names|
  {
    if names == [] then Some([])
    else
      match (ParseDeviceType(names[0]), ParsePlatforms(names[1..]))
      case (Some(t), Some(ts)) => Some([t] + ts)
      case _ => None
  }

  /** The untyped form input of the game form. */
  datatype GameInput = GameInput(title: string, genre: string, platforms: seq<string>, description: string)

  /** gameSchema: title of 1 to 100 characters, non-empty genre, at least one platform, all
      of them known, and a description of 10 to 500 characters. */
  predicate GameValid(input: GameInput) {
    1 <= |input.title| <= 100 && |input.genre| >= 1 &&
    ParsePlatforms(input.platforms).Some? && |input.platforms| >= 1 &&
    10 <= |input.description| <= 500
  }

  /** The platforms of a valid game form are a non-empty list of known platforms. */
  lemma ValidGamePlatforms(input: GameInput)
    requires GameValid(input)
    ensures var ps := ParsePlatforms(input.platforms).value;
      |ps| >= 1 && forall k :: 0 <= k < |ps| ==> DeviceTypeName(ps[k]) == input.platforms[k]
  {
  }

  /** Every device of the initial data would pass the device form. */
  lemma InitialDevicesPassDeviceRules()
    ensures forall d :: d in InitialDevices ==>
      ParseDevice(DeviceInput(d.name, DeviceTypeName(d.deviceType), DeviceStatusName(d.status),
                              d.specs, d.pricePerHour)) == Some(DeviceData(d.name, d.deviceType, d.status, d.specs, d.pricePerHour))
  {
  }
}
