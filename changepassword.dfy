/**
 * The change-password page of the client: the strength meter
 * `getPasswordStrength` and `validateForm`.  Lengths count characters.
 */
module ChangePassword {

  predicate IsLower(c: char) { 'a' <= c <= 'z' }
  predicate IsUpper(c: char) { 'A' <= c <= 'Z' }
  predicate IsAsciiDigit(c: char) { '0' <= c <= '9' }
  /** `[^a-zA-Z0-9]`: any character that is not an ASCII letter or digit. */
  predicate IsOther(c: char) { !IsLower(c) && !IsUpper(c) && !IsAsciiDigit(c) }

  /** `/[class]/.test(password)`: some character of the password is in the class. */
  predicate HasLower(p: string) { exists k :: 0 <= k < |p| && IsLower(p[k]) }
  predicate HasUpper(p: string) { exists k :: 0 <= k < |p| && IsUpper(p[k]) }
  predicate HasDigit(p: string) { exists k :: 0 <= k < |p| && IsAsciiDigit(p[k]) }
  predicate HasOther(p: string) { exists k :: 0 <= k < |p| && IsOther(p[k]) }

  /** The meter's reading: the score with the label and bar colour of its level. */
  datatype Strength = Strength(strength: nat, labelText: string, color: string)

  /** The `levels` table; every score from 0 to 6 has an entry. */
  function Level(n: nat): (r: (string, string))
    requires n <= 6
    ensures r.0 != "" && r.1 != ""
  {
    match n
    case 0 => ("Too Weak", "bg-red-500")
    case 1 => ("Weak", "bg-red-500")
    case 2 => ("Weak", "bg-orange-500")
    case 3 => ("Fair", "bg-yellow-500")
    case 4 => ("Good", "bg-blue-500")
    case 5 => ("Strong", "bg-green-500")
    case 6 => ("Very Strong", "bg-green-600")
  }

  function Point(b: bool): nat { if b then 1 else 0 }

  /**
   * `getPasswordStrength`: an empty password reads 0 with no label; any other
   * scores one point per criterion met (at least 8 characters, at least 12,
   * a lower-case letter, an upper-case letter, a digit, another character),
   * labelled from the table.
   */
  function PasswordStrength(p: string): (r: Strength)
    ensures p == "" ==> r == Strength(0, "", "")
    ensures r.strength <= 6
    ensures p != "" ==> r.labelText != "" && (r.labelText, r.color) == Level(r.strength)
    ensures r.strength == 6 <==> |p| >= 12 && HasLower(p) && HasUpper(p) && HasDigit(p) && HasOther(p)
    ensures |p| < 8 ==> r.strength <= 4
  {
    if p == "" then Strength(0, "", "")
    else
      var s := Point(|p| >= 8) + Point(|p| >= 12) + Point(HasLower(p)) + Point(HasUpper(p)) +
               Point(HasDigit(p)) + Point(HasOther(p));
      var level := Level(s);
      Strength(s, level.0, level.1)
  }

  /** Every character is in one of the four classes, so a non-empty password scores at least 1: "Too Weak" is never shown. */
  lemma NonEmptyScoresAtLeastOne(p: string)
    requires p != ""
    ensures PasswordStrength(p).strength >= 1
    ensures PasswordStrength(p).labelText != "Too Weak"
  {
    var c := p[0];
    if IsLower(c) { assert HasLower(p); }
    else if IsUpper(c) { assert HasUpper(p); }
    else if IsAsciiDigit(c) { assert HasDigit(p); }
    else { assert HasOther(p); }
  }

  /** Typing more characters never lowers the score. */
  lemma StrengthMonotone(p: string, q: string)
    requires p != ""
    ensures PasswordStrength(p).strength <= PasswordStrength(p + q).strength
  {
    var pq := p + q;
    if HasLower(p) { var k :| 0 <= k < |p| && IsLower(p[k]); assert pq[k] == p[k]; }
    if HasUpper(p) { var k :| 0 <= k < |p| && IsUpper(p[k]); assert pq[k] == p[k]; }
    if HasDigit(p) { var k :| 0 <= k < |p| && IsAsciiDigit(p[k]); assert pq[k] == p[k]; }
    if HasOther(p) { var k :| 0 <= k < |p| && IsOther(p[k]); assert pq[k] == p[k]; }
  }

  /** The three fields of the form. */
  datatype PasswordForm = PasswordForm(currentPassword: string, newPassword: string, confirmPassword: string)

  const CurrentRequired := "Current password is required"
  const NewRequired := "New password is required"
  const NewTooShort := "Password must be at least 8 characters"
  const NewUnchanged := "New password must be different from current password"
  const ConfirmRequired := "Please confirm your new password"
  const ConfirmMismatch := "Passwords do not match"

  /**
   * `validateForm`: the current password is required; the new one gets the
   * message of its first failing rule (missing, shorter than 8, equal to the
   * current one); the confirmation must be given and equal the new one.
   */
  function ValidateForm(f: PasswordForm): (r: map<string, string>)
    ensures r.Keys <= {"currentPassword", "newPassword", "confirmPassword"}
    ensures "currentPassword" in r <==> f.currentPassword == ""
    ensures "currentPassword" in r ==> r["currentPassword"] == CurrentRequired
    ensures "newPassword" in r <==> |f.newPassword| < 8 || f.newPassword == f.currentPassword
    ensures f.newPassword == "" ==> r["newPassword"] == NewRequired
    ensures 0 < |f.newPassword| < 8 ==> r["newPassword"] == NewTooShort
    ensures |f.newPassword| >= 8 && f.newPassword == f.currentPassword ==> r["newPassword"] == NewUnchanged
    ensures "confirmPassword" in r <==> f.confirmPassword != f.newPassword || f.confirmPassword == ""
    ensures f.confirmPassword == "" ==> r["confirmPassword"] == ConfirmRequired
    ensures f.confirmPassword != "" && f.confirmPassword != f.newPassword ==> r["confirmPassword"] == ConfirmMismatch
    ensures r == map[] <==>
      f.currentPassword != "" && |f.newPassword| >= 8 && f.newPassword != f.currentPassword &&
      f.confirmPassword == f.newPassword
  {
    var e0: map<string, string> := map[];
    var e1 := if f.currentPassword == "" then e0["currentPassword" := CurrentRequired] else e0;
    var e2 :=
      if f.newPassword == "" then e1["newPassword" := NewRequired]
      else if |f.newPassword| < 8 then e1["newPassword" := NewTooShort]
      else if f.newPassword == f.currentPassword then e1["newPassword" := NewUnchanged]
      else e1;
    var r :=
      if f.confirmPassword == "" then e2["confirmPassword" := ConfirmRequired]
      else if f.newPassword != f.confirmPassword then e2["confirmPassword" := ConfirmMismatch]
      else e2;
    assert r == map[] <==> "currentPassword" !in r && "newPassword" !in r && "confirmPassword" !in r;
    r
  }

  /** A form the page accepts always meets the server's own rule for a new password: at least 6 characters. */
  lemma AcceptedMeetsServerLength(f: PasswordForm)
    requires ValidateForm(f) == map[]
    ensures |f.newPassword| >= 6
  {
  }
}
