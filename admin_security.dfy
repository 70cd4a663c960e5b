/** The security utilities of the admin dashboard (admin/admin.js): the
    HTML escaper `sanitizeInput` and the validators `isValidEmail` and
    `isValidPhone`. */
module AdminSecurity {
  import opened Js
  import opened Strings
  import Patterns

  // ---------------------------------------------------------------------
  // sanitizeInput

  /** `s.replace(/c/g, entity)`. */
  function ReplaceAll(s: string, c: char, entity: string): string
  {
    if s == [] then [] else (if s[0] == c then entity else [s[0]]) + ReplaceAll(s[1..], c, entity)
  }

  /** The five replacement passes of `sanitizeInput`, in the source's order. */
  const Passes: seq<(char, string)> :=
    [('<', "&lt;"), ('>', "&gt;"), ('"', "&quot;"), ('\'', "&#x27;"), ('/', "&#x2F;")]

  /** Chained `replace` calls, one per pass, first to last. */
  function ApplyPasses(s: string, ps: seq<(char, string)>): string
    decreases |ps|
  {
    if ps == [] then s else ApplyPasses(ReplaceAll(s, ps[0].0, ps[0].1), ps[1..])
  }

  /** `sanitizeInput` on a string: the five chained global replacements,
      which escape each special character once and keep every other. */
  function Sanitize(s: string): (r: string)
    ensures r == EscapeEach(s)
  {
    SanitizeIsEscapeEach(s);
    ApplyPasses(s, Passes)
  }

  /** The five characters the escaper replaces. */
  predicate Special(c: char)
  {
    c == '<' || c == '>' || c == '"' || c == '\'' || c == '/'
  }

  /** What one character becomes: its entity, or itself. */
  function Escape(c: char): string
  {
    match c
    case '<' => "&lt;"
    case '>' => "&gt;"
    case '"' => "&quot;"
    case '\'' => "&#x27;"
    case '/' => "&#x2F;"
    case _ => [c]
  }

  /** Escaping character by character. */
  function EscapeEach(s: string): (r: string)
    ensures forall i | 0 <= i < |r| :: !Special(r[i])
    ensures |r| >= |s|
  {
    if s == [] then [] else Escape(s[0]) + EscapeEach(s[1..])
  }

  lemma {:induction false} ReplaceAllConcat(a: string, b: string, c: char, e: string)
    ensures ReplaceAll(a + b, c, e) == ReplaceAll(a, c, e) + ReplaceAll(b, c, e)
  {
    if a == [] {
      assert a + b == b;
    } else {
      assert (a + b)[1..] == a[1..] + b;
      ReplaceAllConcat(a[1..], b, c, e);
    }
  }

  lemma {:induction false} ReplaceAllAbsent(s: string, c: char, e: string)
    requires c !in s
    ensures ReplaceAll(s, c, e) == s
  {
    if s != [] {
      ReplaceAllAbsent(s[1..], c, e);
      assert [s[0]] + s[1..] == s;
    }
  }

  lemma {:induction false} ApplyPassesConcat(a: string, b: string, ps: seq<(char, string)>)
    ensures ApplyPasses(a + b, ps) == ApplyPasses(a, ps) + ApplyPasses(b, ps)
    decreases |ps|
  {
    if ps != [] {
      ReplaceAllConcat(a, b, ps[0].0, ps[0].1);
      ApplyPassesConcat(ReplaceAll(a, ps[0].0, ps[0].1), ReplaceAll(b, ps[0].0, ps[0].1), ps[1..]);
    }
  }

  lemma {:induction false} ApplyPassesAbsent(s: string, ps: seq<(char, string)>)
    requires forall j | 0 <= j < |ps| :: ps[j].0 !in s
    ensures ApplyPasses(s, ps) == s
    decreases |ps|
  {
    if ps != [] {
      ReplaceAllAbsent(s, ps[0].0, ps[0].1);
      ApplyPassesAbsent(s, ps[1..]);
    }
  }

  lemma ReplaceAllOne(x: char, c: char, e: string)
    ensures ReplaceAll([x], c, e) == if x == c then e else [x]
  {
    assert [x][1..] == [];
  }

  /** No pass puts in a character that a later pass replaces. */
  predicate LaterPassesSpare(ps: seq<(char, string)>)
  {
    forall i, j | 0 <= i < j < |ps| :: ps[j].0 !in ps[i].1
  }

  /** The entity of the first pass that replaces `c`, or `c` itself. */
  function FirstEntity(c: char, ps: seq<(char, string)>): string
  {
    if ps == [] then [c] else if c == ps[0].0 then ps[0].1 else FirstEntity(c, ps[1..])
  }

  lemma {:induction false} ApplyPassesChar(c: char, ps: seq<(char, string)>)
    requires LaterPassesSpare(ps)
    ensures ApplyPasses([c], ps) == FirstEntity(c, ps)
    decreases |ps|
  {
    if ps != [] {
      ReplaceAllOne(c, ps[0].0, ps[0].1);
      if c == ps[0].0 {
        forall j | 0 <= j < |ps[1..]| ensures ps[1..][j].0 !in ps[0].1 {
          assert ps[1..][j] == ps[j + 1];
        }
        ApplyPassesAbsent(ps[0].1, ps[1..]);
      } else {
        assert LaterPassesSpare(ps[1..]) by {
          forall i, j | 0 <= i < j < |ps[1..]| ensures ps[1..][j].0 !in ps[1..][i].1 {
            assert ps[1..][j] == ps[j + 1] && ps[1..][i] == ps[i + 1];
          }
        }
        ApplyPassesChar(c, ps[1..]);
      }
    }
  }

  /** No entity of the escaper holds a character a later pass replaces. */
  lemma PassesSpare()
    ensures LaterPassesSpare(Passes)
  {
  }

  /** The first pass replacing `c` gives exactly `Escape(c)`. */
  lemma FirstEntityIsEscape(c: char)
    ensures FirstEntity(c, Passes) == Escape(c)
  {
    var p1 := Passes[1..];
    var p2 := p1[1..];
    var p3 := p2[1..];
    var p4 := p3[1..];
    assert FirstEntity(c, Passes) == if c == '<' then "&lt;" else FirstEntity(c, p1);
    assert FirstEntity(c, p1) == if c == '>' then "&gt;" else FirstEntity(c, p2);
    assert FirstEntity(c, p2) == if c == '"' then "&quot;" else FirstEntity(c, p3);
    assert FirstEntity(c, p3) == if c == '\'' then "&#x27;" else FirstEntity(c, p4);
    assert p4[1..] == [];
    assert FirstEntity(c, p4) == if c == '/' then "&#x2F;" else [c];
  }

  /** On one character the five passes give that character's entity. */
  lemma SanitizeChar(c: char)
    ensures ApplyPasses([c], Passes) == Escape(c)
  {
    PassesSpare();
    ApplyPassesChar(c, Passes);
    FirstEntityIsEscape(c);
  }

  /** The five sequential passes are the same as escaping each character
      once. */
  lemma {:induction false} SanitizeIsEscapeEach(s: string)
    ensures ApplyPasses(s, Passes) == EscapeEach(s)
  {
    if s == [] {
      assert ApplyPasses(s, Passes) == [];
    } else {
      ApplyPassesConcat([s[0]], s[1..], Passes);
      assert [s[0]] + s[1..] == s;
      SanitizeChar(s[0]);
      SanitizeIsEscapeEach(s[1..]);
    }
  }

  /** `sanitizeInput`: a string comes back with each of `<`, `>`, `"`, `'`
      and `/` replaced by its entity and every other character kept; any
      other value comes back unchanged. */
  function SanitizeInput(input: Value): (r: Value)
    ensures !input.Str? ==> r == input
    ensures input.Str? ==> r == Str(EscapeEach(input.s))
    ensures input.Str? ==> forall i | 0 <= i < |r.s| :: !Special(r.s[i])
  {
    if !input.Str? then input
    else Str(Sanitize(input.s))
  }

  /** A string without the five characters is left as it is. */
  lemma {:induction false} EscapeEachPlain(s: string)
    requires forall i | 0 <= i < |s| :: !Special(s[i])
    ensures EscapeEach(s) == s
  {
    if s != [] {
      EscapeEachPlain(s[1..]);
      assert [s[0]] + s[1..] == s;
    }
  }

  /** Sanitising twice is sanitising once. */
  lemma SanitizeIdempotent(input: Value)
    ensures SanitizeInput(SanitizeInput(input)) == SanitizeInput(input)
  {
    if input.Str? {
      EscapeEachPlain(EscapeEach(input.s));
    }
  }

  /** The escaper leaves `&` alone, so an entity typed by the user and the
      character it stands for come out the same. */
  lemma SanitizeNotInjective()
    ensures SanitizeInput(Str("<")) == SanitizeInput(Str("&lt;"))
  {
    EscapeEachPlain("&lt;");
    assert EscapeEach("<") == "&lt;" + EscapeEach("");
  }

  /** Decoding the five entities (a sixth `&` sequence is kept as it is). */
  function Unescape(t: string): string
  {
    if t == [] then []
    else if |t| >= 4 && t[..4] == "&lt;" then "<" + Unescape(t[4..])
    else if |t| >= 4 && t[..4] == "&gt;" then ">" + Unescape(t[4..])
    else if |t| >= 6 && t[..6] == "&quot;" then "\"" + Unescape(t[6..])
    else if |t| >= 6 && t[..6] == "&#x27;" then "'" + Unescape(t[6..])
    else if |t| >= 6 && t[..6] == "&#x2F;" then "/" + Unescape(t[6..])
    else [t[0]] + Unescape(t[1..])
  }

  /** Decoding reads one escaped character back off the front. */
  lemma UnescapeEscapeCons(c: char, rest: string)
    requires c != '&'
    ensures Unescape(Escape(c) + rest) == [c] + Unescape(rest)
  {
    var t := Escape(c) + rest;
    var e := Escape(c);
    assert t[..|e|] == e && t[|e|..] == rest;
    if c == '<' {
    } else if c == '>' {
      assert t[..4][1] != "&lt;"[1];
    } else if c == '"' {
      assert t[..4][1] != "&lt;"[1] && t[..4][1] != "&gt;"[1];
    } else if c == '\'' {
      assert t[..4][1] != "&lt;"[1] && t[..4][1] != "&gt;"[1] && t[..6][1] != "&quot;"[1];
    } else if c == '/' {
      assert t[..4][1] != "&lt;"[1] && t[..4][1] != "&gt;"[1] && t[..6][1] != "&quot;"[1];
      assert t[..6][4] != "&#x27;"[4];
    } else {
      assert t[0] == c;
      assert |t| < 4 || t[..4][0] != '&';
      assert |t| < 6 || t[..6][0] != '&';
    }
  }

  /** Decoding undoes the escaper on every string without `&`. */
  lemma {:induction false} UnescapeEscapeEach(s: string)
    requires '&' !in s
    ensures Unescape(EscapeEach(s)) == s
  {
    if s != [] {
      UnescapeEscapeEach(s[1..]);
      UnescapeEscapeCons(s[0], EscapeEach(s[1..]));
      assert [s[0]] + s[1..] == s;
    }
  }

  // ---------------------------------------------------------------------
  // isValidEmail

  /** `isValidEmail`: the e-mail regular expression of the dashboard. */
  function IsValidEmail(email: string): (r: bool)
    ensures r <==> Patterns.EmailPattern(email)
    ensures r ==> Occurrences(email, '@') == 1
  {
    Patterns.MatchesEmailCorrect(email);
    if Patterns.MatchesEmail(email) then Patterns.EmailPatternOneAt(email); true else false
  }

  // ---------------------------------------------------------------------
  // isValidPhone

  predicate IsDigit(c: char)
  {
    '0' <= c <= '9'
  }

  /** `[789][01]\d{8}`: the ten digits after the country or trunk prefix. */
  predicate NationalNumber(t: string)
  {
    && |t| == 10
    && (t[0] == '7' || t[0] == '8' || t[0] == '9')
    && (t[1] == '0' || t[1] == '1')
    && forall i | 2 <= i < 10 :: IsDigit(t[i])
  }

  /** `/^(\+234|0)[789][01]\d{8}$/`. */
  predicate PhonePattern(s: string)
    ensures PhonePattern(s) ==> |s| == 11 || |s| == 14
    ensures PhonePattern(s) ==> s[0] == '+' || s[0] == '0'
  {
    || (|s| >= 4 && s[..4] == "+234" && NationalNumber(s[4..]))
    || (|s| >= 1 && s[0] == '0' && NationalNumber(s[1..]))
  }

  /** `isValidPhone`: whitespace is removed, then the Nigerian number
      pattern must match the whole rest. An accepted number is 14
      characters long (`+234…`) or 11 (`0…`), and all of it after a leading
      `+` is digits. */
  function IsValidPhone(phone: string): (r: bool)
    ensures r ==> |StripWhitespace(phone)| == 14 || |StripWhitespace(phone)| == 11
    ensures r ==> forall i | 1 <= i < |StripWhitespace(phone)| :: IsDigit(StripWhitespace(phone)[i])
    ensures r ==> StripWhitespace(phone)[0] == '+' || StripWhitespace(phone)[0] == '0'
    ensures r ==> var s := StripWhitespace(phone);
      && |s| >= 10
      && (s[..|s| - 10] == "0" || s[..|s| - 10] == "+234")
      && NationalNumber(s[|s| - 10..])
  {
    var s := StripWhitespace(phone);
    if PhonePattern(s) then
      assert s[..|s| - 10] == "0" || s[..|s| - 10] == "+234" by {
        if s[0] == '+' { assert |s| == 14; } else { assert s[..1] == [s[0]]; }
      }
      assert forall i | 1 <= i < |s| :: IsDigit(s[i]) by {
        if s[0] == '+' {
          forall i | 1 <= i < |s| ensures IsDigit(s[i]) {
            if i >= 4 { assert s[i] == s[4..][i - 4]; }
            else { assert s[..4][i] == s[i]; }
          }
        } else {
          forall i | 1 <= i < |s| ensures IsDigit(s[i]) {
            assert s[i] == s[1..][i - 1];
          }
        }
      }
      true
    else false
  }

  /** The other direction: a trunk or country prefix followed by a
      well-formed national number, with no whitespace, is accepted. */
  lemma PhoneIntro(prefix: string, t: string)
    requires prefix == "0" || prefix == "+234"
    requires NationalNumber(t)
    ensures IsValidPhone(prefix + t)
  {
    var s := prefix + t;
    forall i | 0 <= i < |s| ensures !IsWhitespace(s[i]) {
      if i >= |prefix| { assert s[i] == t[i - |prefix|]; }
    }
    StripNoWhitespace(s);
    assert s[..|prefix|] == prefix && s[|prefix|..] == t;
  }

  /** Spaces anywhere in the typed number do not change the verdict. */
  lemma PhoneIgnoresWhitespace(a: string, b: string, w: char)
    requires IsWhitespace(w)
    ensures IsValidPhone(a + [w] + b) == IsValidPhone(a + b)
  {
    StripConcat(a + [w], b);
    StripConcat(a, [w]);
    assert [w][1..] == [];
    assert StripWhitespace([w]) == [];
    assert StripWhitespace(a + [w]) == StripWhitespace(a);
    StripConcat(a, b);
    assert StripWhitespace(a + [w] + b) == StripWhitespace(a + b);
  }

  /** The trunk prefix `0` and the country code `+234` admit the same
      national numbers. */
  lemma PhonePrefixesAgree(t: string)
    requires |t| == 10
    ensures PhonePattern("0" + t) <==> PhonePattern("+234" + t)
  {
    assert ("0" + t)[1..] == t;
    assert ("+234" + t)[..4] == "+234" && ("+234" + t)[4..] == t;
  }
}
