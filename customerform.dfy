/**
 * The customer form of the client: `validateForm`, with the phone character
 * set the `Customer` model also enforces and the `local@domain.tld` email
 * shape.
 */
module CustomerForm {
  import opened Text

  /** One character of `[\d\s\-\+\(\)]`: an ASCII digit, whitespace, `-`, `+`, `(` or `)`. */
  predicate PhoneChar(c: char) {
    IsDigit(c) || IsWhitespace(c) || c == '-' || c == '+' || c == '(' || c == ')'
  }

  /**
   * `/^[\d\s\-\+\(\)]+$/`, tested on the untrimmed phone; the `is` validator
   * of the `Customer` model uses the same class (its `i` flag changes nothing
   * here).
   */
  predicate PhoneAllowed(s: string) {
    |s| > 0 && forall k :: 0 <= k < |s| ==> PhoneChar(s[k])
  }

  /** `[^\s@]`: anything but whitespace and `@`. */
  predicate EmailChar(c: char) {
    !IsWhitespace(c) && c != '@'
  }

  /** Every character at positions `lo .. hi - 1` is in `[^\s@]`. */
  predicate EmailRange(s: string, lo: int, hi: int)
    requires 0 <= lo <= hi <= |s|
  {
    forall k :: lo <= k < hi ==> EmailChar(s[k])
  }

  /**
   * What `/^[^\s@]+@[^\s@]+\.[^\s@]+$/` matches, read off the pattern: an
   * `@` at `i` and a `.` at `j` that cut the text into three non-empty runs of `[^\s@]`.
   */
  ghost predicate EmailPattern(s: string) {
    exists i, j :: 0 < i && i + 1 < j && j + 1 < |s| && s[i] == '@' && s[j] == '.' &&
      EmailRange(s, 0, i) && EmailRange(s, i + 1, j) && EmailRange(s, j + 1, |s|)
  }

  /** The position of the first `@`, or `|s|` when there is none. */
  function AtIndex(s: string): (i: nat)
    ensures i <= |s|
    ensures i < |s| ==> s[i] == '@'
    ensures forall k :: 0 <= k < i ==> s[k] != '@'
  {
    if s == [] || s[0] == '@' then 0 else 1 + AtIndex(s[1..])
  }

  /**
   * The email test as the form can decide it: exactly one `@`, with a local
   * part and a domain free of whitespace, and a `.` in the domain that is
   * neither its first nor its last character.
   */
  predicate EmailValid(s: string) {
    var i := AtIndex(s);
    && 0 < i && i + 3 < |s|
    && EmailRange(s, 0, i)
    && EmailRange(s, i + 1, |s|)
    && '.' in s[i + 2..|s| - 1]
  }

  /** The decision procedure accepts exactly what the regular expression matches. */
  lemma EmailValidIff(s: string)
    ensures EmailValid(s) <==> EmailPattern(s)
  {
    if EmailValid(s) {
      EmailValidMatches(s);
    }
    if EmailPattern(s) {
      var a, b :| 0 < a && a + 1 < b && b + 1 < |s| && s[a] == '@' && s[b] == '.' &&
        EmailRange(s, 0, a) && EmailRange(s, a + 1, b) && EmailRange(s, b + 1, |s|);
      MatchIsEmailValid(s, a, b);
    }
  }

  lemma EmailValidMatches(s: string)
    requires EmailValid(s)
    ensures EmailPattern(s)
  {
    var i := AtIndex(s);
    var d := s[i + 2..|s| - 1];
    var m :| 0 <= m < |d| && d[m] == '.';
    var j := i + 2 + m;
    assert s[j] == d[m];
    assert EmailRange(s, i + 1, j) && EmailRange(s, j + 1, |s|);
  }

  lemma MatchIsEmailValid(s: string, a: int, b: int)
    requires 0 < a && a + 1 < b && b + 1 < |s| && s[a] == '@' && s[b] == '.'
    requires EmailRange(s, 0, a) && EmailRange(s, a + 1, b) && EmailRange(s, b + 1, |s|)
    ensures EmailValid(s)
  {
    var i := AtIndex(s);
    assert i == a by {
      if i < a {
        assert false;
      }
    }
    assert EmailChar(s[b]);
    assert EmailRange(s, a + 1, |s|);
    assert s[a + 2..|s| - 1][b - a - 2] == s[b];
  }

  /** The fields `validateForm` reads. */
  datatype CustomerFormData = CustomerFormData(name: string, phone: string, email: string)

  const NameRequired := "Name is required"
  const PhoneRequired := "Phone number is required"
  const PhoneInvalid := "Invalid phone number format"
  const EmailInvalid := "Invalid email format"

  /**
   * `validateForm`: the name needs a non-whitespace character; the phone too,
   * and then only the allowed characters; an email, when one is given, needs
   * the `local@domain.tld` shape.
   */
  function ValidateForm(f: CustomerFormData): (r: map<string, string>)
    ensures r.Keys <= {"name", "phone", "email"}
    ensures "name" in r <==> AllWhitespace(f.name)
    ensures "name" in r ==> r["name"] == NameRequired
    ensures "phone" in r <==> !PhoneAllowed(f.phone) || AllWhitespace(f.phone)
    ensures "phone" in r ==> r["phone"] == (if AllWhitespace(f.phone) then PhoneRequired else PhoneInvalid)
    ensures "email" in r <==> f.email != "" && !EmailPattern(f.email)
    ensures "email" in r ==> r["email"] == EmailInvalid
    ensures r == map[] <==>
      NotBlank(f.name) && NotBlank(f.phone) && PhoneAllowed(f.phone) && (f.email == "" || EmailPattern(f.email))
  {
    TrimEmpty(f.name);
    TrimEmpty(f.phone);
    EmailValidIff(f.email);
    var e0: map<string, string> := map[];
    var e1 := if Trim(f.name) == "" then e0["name" := NameRequired] else e0;
    var e2 :=
      if Trim(f.phone) == "" then e1["phone" := PhoneRequired]
      else if !PhoneAllowed(f.phone) then e1["phone" := PhoneInvalid]
      else e1;
    var r := if f.email != "" && !EmailValid(f.email) then e2["email" := EmailInvalid] else e2;
    assert r == map[] <==> "name" !in r && "phone" !in r && "email" !in r;
    r
  }

  /** A typical address passes, and one with a second `@` does not. */
  lemma EmailExamples()
    ensures EmailPattern("ali@shop.pk")
    ensures !EmailPattern("a@b@c.d")
  {
    var good := "ali@shop.pk";
    assert good[3] == '@' && good[8] == '.';
    assert EmailRange(good, 0, 3) && EmailRange(good, 4, 8) && EmailRange(good, 9, |good|);
    var bad := "a@b@c.d";
    EmailValidIff(bad);
    assert AtIndex(bad) == 1;
    assert bad[3] == '@';
  }
}
