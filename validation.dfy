/**
 * The pure part of the contact form: the whitespace that String.prototype.trim
 * and the regular-expression class \s recognise, trimming, the email pattern
 * /^[^\s@]+@[^\s@]+\.[^\s@]+$/ and the ordered rule chain of validateField.
 */
module Validation {

  /** The ECMAScript WhiteSpace and LineTerminator code points. */
  predicate IsWhitespace(c: char)
    ensures c == ' ' || c == '\t' || c == '\n' || c == '\r' ==> IsWhitespace(c)
    ensures IsWhitespace(c) ==> c != '@' && c != '.' && !('a' <= c <= 'z') && !('A' <= c <= 'Z') && !('0' <= c <= '9')
  {
    var n := c as int;
    || (0x09 <= n <= 0x0D)
    || n == 0x20 || n == 0xA0 || n == 0x1680
    || (0x2000 <= n <= 0x200A)
    || n == 0x2028 || n == 0x2029 || n == 0x202F || n == 0x205F
    || n == 0x3000 || n == 0xFEFF
  }

  predicate AllWhitespace(s: string)
  {
    forall k :: 0 <= k < |s| ==> IsWhitespace(s[k])
  }

  predicate NoWhitespace(s: string)
  {
    forall k :: 0 <= k < |s| ==> !IsWhitespace(s[k])
  }

  /** The string without its leading whitespace: a suffix whose dropped prefix is all whitespace. */
  function TrimStart(s: string): (r: string)
    ensures |r| <= |s| && r == s[|s| - |r|..]
    ensures AllWhitespace(s[..|s| - |r|])
    ensures |r| > 0 ==> !IsWhitespace(r[0])
  {
    if |s| > 0 && IsWhitespace(s[0]) then TrimStart(s[1..]) else s
  }

  /** The string without its trailing whitespace: a prefix whose dropped suffix is all whitespace. */
  function TrimEnd(s: string): (r: string)
    ensures |r| <= |s| && r == s[..|r|]
    ensures AllWhitespace(s[|r|..])
    ensures |r| > 0 ==> !IsWhitespace(r[|r| - 1])
  {
    if |s| > 0 && IsWhitespace(s[|s| - 1]) then TrimEnd(s[..|s| - 1]) else s
  }

  /** String.prototype.trim. */
  function Trim(s: string): (r: string)
    ensures |r| <= |s|
    ensures |r| == 0 <==> AllWhitespace(s)
    ensures |r| > 0 ==> !IsWhitespace(r[0]) && !IsWhitespace(r[|r| - 1])
  {
    var t := TrimStart(s);
    var r := TrimEnd(t);
    assert |r| == 0 ==> AllWhitespace(s) by {
      if |r| == 0 {
        assert s == s[..|s| - |t|] + t;
        assert t == t[|r|..];
      }
    }
    r
  }

  /**
   * Trim removes exactly the padding: a core that neither starts nor ends
   * with whitespace comes back unchanged from any whitespace around it.
   */
  lemma {:induction false} TrimPadding(lead: string, core: string, trail: string)
    requires AllWhitespace(lead) && AllWhitespace(trail)
    requires |core| > 0 ==> !IsWhitespace(core[0]) && !IsWhitespace(core[|core| - 1])
    ensures Trim(lead + core + trail) == core
  {
    if |core| == 0 {
      assert lead + core + trail == lead + trail;
      assert AllWhitespace(lead + trail) by {
        forall k | 0 <= k < |lead + trail| ensures IsWhitespace((lead + trail)[k]) {
          if k >= |lead| { assert (lead + trail)[k] == trail[k - |lead|]; }
        }
      }
      return;
    }
    TrimStartPadding(lead, core + trail);
    assert lead + core + trail == lead + (core + trail);
    TrimEndPadding(core, trail);
  }

  lemma {:induction false} TrimStartPadding(lead: string, rest: string)
    requires AllWhitespace(lead)
    requires |rest| > 0 ==> !IsWhitespace(rest[0])
    ensures TrimStart(lead + rest) == rest
  {
    if |lead| > 0 {
      assert (lead + rest)[1..] == lead[1..] + rest;
      TrimStartPadding(lead[1..], rest);
    }
  }

  lemma {:induction false} TrimEndPadding(rest: string, trail: string)
    requires AllWhitespace(trail)
    requires |rest| > 0 ==> !IsWhitespace(rest[|rest| - 1])
    ensures TrimEnd(rest + trail) == rest
  {
    if |trail| > 0 {
      assert (rest + trail)[..|rest + trail| - 1] == rest + trail[..|trail| - 1];
      TrimEndPadding(rest, trail[..|trail| - 1]);
    } else {
      assert rest + trail == rest;
    }
  }

  /** Trimming twice is trimming once. */
  lemma TrimIdempotent(s: string)
    ensures Trim(Trim(s)) == Trim(s)
  {
    var r := Trim(s);
    assert r == "" + r + "";
    TrimPadding("", r, "");
  }

  /** The index of the first c in s, or |s| when there is none. */
  function IndexOf(s: string, c: char): (r: nat)
    ensures r <= |s|
    ensures r < |s| ==> s[r] == c
    ensures forall k :: 0 <= k < r ==> s[k] != c
  {
    if |s| == 0 then 0
    else if s[0] == c then 0
    else 1 + IndexOf(s[1..], c)
  }

  /** The domain has a dot that is neither its first nor its last character. */
  predicate HasInnerDot(domain: string)
  {
    exists k :: 0 < k < |domain| - 1 && domain[k] == '.'
  }

  /**
   * isValidEmail: no whitespace, exactly one "@" with a non-empty local part
   * before it, and a domain after it with an inner dot.
   */
  predicate IsValidEmail(s: string)
    ensures IsValidEmail(s) ==> NoWhitespace(s) && multiset(s)['@'] == 1
    ensures IsValidEmail(s) ==> |s| >= 5 && s[0] != '@'
  {
    var at := IndexOf(s, '@');
    var ok :=
      && NoWhitespace(s)
      && 0 < at < |s|
      && '@' !in s[at + 1..]
      && HasInnerDot(s[at + 1..]);
    if ok then SingleAt(s, at); true else false
  }

  /** An "@" at index at with none before and none after is the only one. */
  lemma SingleAt(s: string, at: nat)
    requires at < |s| && s[at] == '@'
    requires forall k :: 0 <= k < at ==> s[k] != '@'
    requires '@' !in s[at + 1..]
    ensures multiset(s)['@'] == 1
  {
    assert s == s[..at] + [s[at]] + s[at + 1..];
    assert '@' !in s[..at];
    assert multiset(s) == multiset(s[..at]) + multiset{'@'} + multiset(s[at + 1..]);
  }

  /** A non-empty run of [^\s@]. */
  ghost predicate PlainRun(t: string)
  {
    |t| > 0 && forall k :: 0 <= k < |t| ==> !IsWhitespace(t[k]) && t[k] != '@'
  }

  /** s = local "@" host "." tld with each of the three parts a PlainRun. */
  ghost predicate PatternSplit(s: string, i: int, j: int)
  {
    && 0 <= i < j < |s|
    && s[i] == '@' && s[j] == '.'
    && PlainRun(s[..i]) && PlainRun(s[i + 1..j]) && PlainRun(s[j + 1..])
  }

  /** The language of /^[^\s@]+@[^\s@]+\.[^\s@]+$/. */
  ghost predicate MatchesEmailPattern(s: string)
  {
    exists i, j :: PatternSplit(s, i, j)
  }

  /** Every character from a to b (exclusive) is neither whitespace nor "@". */
  ghost predicate PlainBetween(s: string, a: int, b: int)
    requires 0 <= a <= b <= |s|
  {
    forall k :: a <= k < b ==> !IsWhitespace(s[k]) && s[k] != '@'
  }

  lemma PlainRunSlice(s: string, a: int, b: int)
    requires 0 <= a <= b <= |s|
    ensures PlainRun(s[a..b]) <==> a < b && PlainBetween(s, a, b)
  {
    if a < b && PlainBetween(s, a, b) {
      forall k | 0 <= k < b - a ensures !IsWhitespace(s[a..b][k]) && s[a..b][k] != '@' {
        assert s[a..b][k] == s[a + k];
      }
    }
    if PlainRun(s[a..b]) {
      forall k | a <= k < b ensures !IsWhitespace(s[k]) && s[k] != '@' {
        assert s[k] == s[a..b][k - a];
      }
    }
  }

  /** Every string the predicate accepts is in the pattern's language. */
  lemma EmailSound(s: string)
    requires IsValidEmail(s)
    ensures MatchesEmailPattern(s)
  {
    var at := IndexOf(s, '@');
    var domain := s[at + 1..];
    var k :| 0 < k < |domain| - 1 && domain[k] == '.';
    var j := at + 1 + k;
    assert s[j] == '.';
    assert forall m :: at < m < |s| ==> s[m] != '@' by {
      forall m | at < m < |s| ensures s[m] != '@' {
        assert s[m] == domain[m - at - 1];
      }
    }
    PlainRunSlice(s, 0, at);
    PlainRunSlice(s, at + 1, j);
    PlainRunSlice(s, j + 1, |s|);
    assert s[j + 1..|s|] == s[j + 1..];
    assert s[0..at] == s[..at];
    assert PatternSplit(s, at, j);
  }

  /** Every string in the pattern's language is accepted by the predicate. */
  lemma EmailComplete(s: string, i: int, j: int)
    requires PatternSplit(s, i, j)
    ensures IsValidEmail(s)
  {
    assert s[0..i] == s[..i];
    assert s[j + 1..|s|] == s[j + 1..];
    PlainRunSlice(s, 0, i);
    PlainRunSlice(s, i + 1, j);
    PlainRunSlice(s, j + 1, |s|);
    var at := IndexOf(s, '@');
    assert at == i;
    var domain := s[at + 1..];
    assert domain[j - at - 1] == s[j];
    assert HasInnerDot(domain);
    assert forall m :: 0 <= m < |domain| ==> domain[m] != '@' by {
      forall m | 0 <= m < |domain| ensures domain[m] != '@' {
        assert domain[m] == s[at + 1 + m];
      }
    }
  }

  /** The predicate decides exactly the regular expression's language. */
  lemma EmailPatternEquivalence(s: string)
    ensures IsValidEmail(s) <==> MatchesEmailPattern(s)
  {
    if IsValidEmail(s) {
      EmailSound(s);
    }
    if MatchesEmailPattern(s) {
      var i, j :| PatternSplit(s, i, j);
      EmailComplete(s, i, j);
    }
  }

  lemma AcceptsShortAddress()
    ensures MatchesEmailPattern("a@b.co")
  {
    assert IndexOf("a@b.co", '@') == 1;
    assert "a@b.co"[2..] == "b.co";
    assert "b.co"[1] == '.';
    assert IsValidEmail("a@b.co");
    EmailPatternEquivalence("a@b.co");
  }

  lemma RejectsMissingDot()
    ensures !MatchesEmailPattern("a@b")
  {
    assert IndexOf("a@b", '@') == 1;
    assert "a@b"[2..] == "b";
    assert !IsValidEmail("a@b");
    EmailPatternEquivalence("a@b");
  }

  lemma RejectsSpace()
    ensures !MatchesEmailPattern("a b@c.com")
  {
    assert IsWhitespace("a b@c.com"[1]);
    assert !IsValidEmail("a b@c.com");
    EmailPatternEquivalence("a b@c.com");
  }

  /** The accept and reject examples the form's behaviour is documented with. */
  lemma EmailExamples()
    ensures MatchesEmailPattern("a@b.co")
    ensures !MatchesEmailPattern("a@b")
    ensures !MatchesEmailPattern("a b@c.com")
  {
    AcceptsShortAddress();
    RejectsMissingDot();
    RejectsSpace();
  }

  const MinMessageLength: nat := 10
  const EmailError: string := "Please enter a valid email address"
  const MessageLengthError: string := "Message must be at least 10 characters long"

  /** toUpperCase on a single character, for the ASCII letters a field name is made of. */
  function ToUpper(c: char): char
  {
    if 'a' <= c <= 'z' then (c as int - 32) as char else c
  }

  /** fieldName.charAt(0).toUpperCase() + fieldName.slice(1). */
  function Capitalize(name: string): (r: string)
    ensures |r| == |name|
    ensures |name| > 0 ==> r[1..] == name[1..]
    ensures |name| > 0 && 'a' <= name[0] <= 'z' ==> 'A' <= r[0] <= 'Z' && r[0] as int == name[0] as int - 32
    ensures |name| > 0 && !('a' <= name[0] <= 'z') ==> r[0] == name[0]
  {
    if |name| == 0 then "" else [ToUpper(name[0])] + name[1..]
  }

  function RequiredError(name: string): (r: string)
    ensures r != ""
    ensures |r| == |name| + |" is required"| && r[..|name|] == Capitalize(name) && r[|name|..] == " is required"
  {
    Capitalize(name) + " is required"
  }

  /** The validity flag and the error text validateField computes. */
  datatype FieldCheck = FieldCheck(valid: bool, message: string)

  /**
   * validateField's rule chain on the trimmed value: required first, then
   * the email shape for the field named "email", then the minimum length
   * for the field named "message".
   */
  function CheckField(name: string, raw: string): (r: FieldCheck)
    ensures r.valid <==> r.message == ""
  {
    var value := Trim(raw);
    if value == "" then FieldCheck(false, RequiredError(name))
    else if name == "email" && !IsValidEmail(value) then FieldCheck(false, EmailError)
    else if name == "message" && |value| < MinMessageLength then FieldCheck(false, MessageLengthError)
    else FieldCheck(true, "")
  }

  /**
   * The rules in their order: a value that trims to nothing is reported as
   * required; otherwise an email field must hold an email and a message
   * field at least 10 characters; a field passing all that is valid.
   */
  lemma CheckFieldRules(name: string, raw: string)
    ensures CheckField(name, raw).valid <==>
      && !AllWhitespace(raw)
      && (name == "email" ==> IsValidEmail(Trim(raw)))
      && (name == "message" ==> |Trim(raw)| >= MinMessageLength)
    ensures AllWhitespace(raw) ==> CheckField(name, raw).message == RequiredError(name)
    ensures !AllWhitespace(raw) && name == "email" && !IsValidEmail(Trim(raw)) ==>
      CheckField(name, raw).message == EmailError
    ensures !AllWhitespace(raw) && name == "message" && |Trim(raw)| < MinMessageLength ==>
      CheckField(name, raw).message == MessageLengthError
  {
  }

  /** A string without whitespace at either end trims to itself. */
  lemma TrimUnpadded(s: string)
    requires |s| > 0 ==> !IsWhitespace(s[0]) && !IsWhitespace(s[|s| - 1])
    ensures Trim(s) == s
  {
    assert s == "" + s + "";
    TrimPadding("", s, "");
  }

  lemma NotEmail(s: string)
    requires '@' !in s
    ensures !IsValidEmail(s)
  {
    assert IndexOf(s, '@') == |s|;
  }

  lemma EmptyNameExample()
    ensures CheckField("name", "") == FieldCheck(false, "Name is required")
  {
    assert Capitalize("name") == "Name";
  }

  lemma BadEmailExample()
    ensures CheckField("email", "bad") == FieldCheck(false, EmailError)
  {
    NotEmail("bad");
    TrimUnpadded("bad");
    assert !IsWhitespace("bad"[0]);
  }

  lemma ShortMessageExample()
    ensures CheckField("message", "short") == FieldCheck(false, MessageLengthError)
  {
    assert "message" != "email" by { assert |"message"| != |"email"|; }
    TrimUnpadded("short");
    assert !IsWhitespace("short"[0]);
  }

  lemma GoodNameExample()
    ensures CheckField("name", "Ann") == FieldCheck(true, "")
  {
    assert !IsWhitespace("Ann"[0]);
  }

  lemma GoodEmailExample()
    ensures CheckField("email", "a@b.co") == FieldCheck(true, "")
  {
    TrimUnpadded("a@b.co");
    EmailExamples();
    EmailPatternEquivalence("a@b.co");
    assert !IsWhitespace("a@b.co"[0]);
  }

  lemma GoodMessageExample()
    ensures CheckField("message", "Hello there, friend") == FieldCheck(true, "")
  {
    assert "message" != "email" by { assert |"message"| != |"email"|; }
    TrimUnpadded("Hello there, friend");
    assert !IsWhitespace("Hello there, friend"[0]);
  }

  /** The failing submission: every field reports its own error. */
  lemma FailingFormExample()
    ensures CheckField("name", "") == FieldCheck(false, "Name is required")
    ensures CheckField("email", "bad") == FieldCheck(false, EmailError)
    ensures CheckField("message", "short") == FieldCheck(false, MessageLengthError)
  {
    EmptyNameExample();
    BadEmailExample();
    ShortMessageExample();
  }

  /** The passing submission: no field reports an error. */
  lemma PassingFormExample()
    ensures CheckField("name", "Ann") == FieldCheck(true, "")
    ensures CheckField("email", "a@b.co") == FieldCheck(true, "")
    ensures CheckField("message", "Hello there, friend") == FieldCheck(true, "")
  {
    GoodNameExample();
    GoodEmailExample();
    GoodMessageExample();
  }
}
