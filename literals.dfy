/** The literal classification at the head of `_get_value`: which operand
    tokens are string, integer or boolean literals, which are object-field
    references and which are plain names. */
module Literals {
  import opened Syntax
  import opened Values

  predicate IsDigit(c: char)
  {
    '0' <= c <= '9'
  }

  /** `str.isdigit` for decimal digits. */
  predicate AllDigits(s: string)
  {
    |s| > 0 && forall i :: 0 <= i < |s| ==> IsDigit(s[i])
  }

  function DigitValue(c: char): nat
    requires IsDigit(c)
  {
    (c as int - '0' as int) as nat
  }

  function DigitsValue(s: string): nat
    requires forall i :: 0 <= i < |s| ==> IsDigit(s[i])
  {
    if |s| == 0 then 0 else DigitsValue(s[..|s| - 1]) * 10 + DigitValue(s[|s| - 1])
  }

  /** `int(s)` for an optional minus sign followed by decimal digits; any
      other string makes the conversion raise. */
  function ParseInt(s: string): (r: Option<int>)
    ensures r.Some? ==> |s| > 0 && (IsDigit(s[0]) || s[0] == '-')
  {
    if AllDigits(s) then Some(DigitsValue(s))
    else if |s| > 0 && s[0] == '-' && AllDigits(s[1..]) then Some(-(DigitsValue(s[1..]) as int))
    else None
  }

  function DigitChar(d: nat): char
    requires d < 10
  {
    ('0' as int + d) as char
  }

  /** Decimal spelling of a number, the partner of `ParseInt`. */
  function ShowNat(n: nat): (r: string)
    ensures AllDigits(r)
  {
    if n < 10 then [DigitChar(n)] else ShowNat(n / 10) + [DigitChar(n % 10)]
  }

  function ShowInt(i: int): string
  {
    if i < 0 then "-" + ShowNat(-i) else ShowNat(i)
  }

  lemma {:induction false} DigitsOfShowNat(n: nat)
    ensures DigitsValue(ShowNat(n)) == n
  {
    var s := ShowNat(n);
    if n >= 10 {
      DigitsOfShowNat(n / 10);
      assert s[..|s| - 1] == ShowNat(n / 10);
    }
  }

  /** Every integer's decimal spelling parses back to it. */
  lemma ParseShowInt(i: int)
    ensures ParseInt(ShowInt(i)) == Some(i)
  {
    var s := ShowInt(i);
    if i < 0 {
      DigitsOfShowNat(-i);
      assert s[1..] == ShowNat(-i);
      assert !IsDigit(s[0]);
    } else {
      DigitsOfShowNat(i);
    }
  }

  // ---------------------------------------------------------------------
  // `str.strip('"')` and `str.split(".")`.

  function DropLeadingQuotes(s: string): string
  {
    if |s| > 0 && s[0] == '"' then DropLeadingQuotes(s[1..]) else s
  }

  function DropTrailingQuotes(s: string): string
  {
    if |s| > 0 && s[|s| - 1] == '"' then DropTrailingQuotes(s[..|s| - 1]) else s
  }

  /** Dropping leading quotes leaves a suffix that does not start with a
      quote, and only quotes are dropped. */
  lemma {:induction false} LeadingQuotes(s: string)
    ensures |DropLeadingQuotes(s)| <= |s| && DropLeadingQuotes(s) == s[|s| - |DropLeadingQuotes(s)|..]
    ensures |DropLeadingQuotes(s)| > 0 ==> DropLeadingQuotes(s)[0] != '"'
    ensures forall i :: 0 <= i < |s| - |DropLeadingQuotes(s)| ==> s[i] == '"'
  {
    if |s| > 0 && s[0] == '"' {
      LeadingQuotes(s[1..]);
    }
  }

  /** Dropping trailing quotes leaves a prefix that does not end with a
      quote, and only quotes are dropped. */
  lemma {:induction false} TrailingQuotes(s: string)
    ensures |DropTrailingQuotes(s)| <= |s| && DropTrailingQuotes(s) == s[..|DropTrailingQuotes(s)|]
    ensures |DropTrailingQuotes(s)| > 0 ==> DropTrailingQuotes(s)[|DropTrailingQuotes(s)| - 1] != '"'
    ensures forall i :: |DropTrailingQuotes(s)| <= i < |s| ==> s[i] == '"'
  {
    if |s| > 0 && s[|s| - 1] == '"' {
      TrailingQuotes(s[..|s| - 1]);
    }
  }

  /** `s.strip('"')`: remove every quote character at either end. */
  function StripQuotes(s: string): string
  {
    DropTrailingQuotes(DropLeadingQuotes(s))
  }

  /** The stripped text neither starts nor ends with a quote. */
  lemma StripQuotesEnds(s: string)
    ensures |StripQuotes(s)| == 0 || (StripQuotes(s)[0] != '"' && StripQuotes(s)[|StripQuotes(s)| - 1] != '"')
  {
    var l := DropLeadingQuotes(s);
    LeadingQuotes(s);
    TrailingQuotes(l);
    var r := DropTrailingQuotes(l);
    if |r| > 0 {
      assert r[0] == l[0];
    }
  }

  /** A quoted literal loses exactly its delimiting quotes when its content
      neither starts nor ends with a quote. */
  lemma StripQuotedLiteral(s: string)
    requires |s| == 0 || (s[0] != '"' && s[|s| - 1] != '"')
    ensures StripQuotes("\"" + s + "\"") == s
  {
    var q := "\"" + s + "\"";
    if |s| == 0 {
      assert q == "\"\"";
      assert q[1..] == "\"" && q[1..][1..] == "";
      assert DropLeadingQuotes(q) == DropLeadingQuotes(q[1..]) == DropLeadingQuotes("") == "";
    } else {
      var t := s + "\"";
      assert q[1..] == t;
      assert t[0] == s[0];
      assert DropLeadingQuotes(q) == DropLeadingQuotes(t) == t;
      assert t[..|t| - 1] == s;
      assert DropTrailingQuotes(t) == DropTrailingQuotes(s) == s;
    }
  }

  /** Text before the first '.'. */
  function BeforeDot(s: string): string
  {
    if |s| == 0 || s[0] == '.' then "" else [s[0]] + BeforeDot(s[1..])
  }

  /** `BeforeDot` is the longest dot-free prefix. */
  lemma {:induction false} BeforeDotPrefix(s: string)
    ensures |BeforeDot(s)| <= |s| && BeforeDot(s) == s[..|BeforeDot(s)|] && '.' !in BeforeDot(s)
    ensures |BeforeDot(s)| < |s| ==> s[|BeforeDot(s)|] == '.'
  {
    if |s| > 0 && s[0] != '.' {
      BeforeDotPrefix(s[1..]);
    }
  }

  /** `s.split(".")[0]` and `s.split(".")[1]`. */
  function SplitDot(s: string): (string, string)
  {
    var head := BeforeDot(s);
    (head, if |head| < |s| then BeforeDot(s[|head| + 1..]) else "")
  }

  /** For a string holding a dot, the two parts are dot-free and are
      separated by the first dot. */
  lemma SplitDotParts(s: string)
    requires '.' in s
    ensures '.' !in SplitDot(s).0 && '.' !in SplitDot(s).1
    ensures |SplitDot(s).0| + 1 + |SplitDot(s).1| <= |s|
    ensures SplitDot(s).0 + "." + SplitDot(s).1 == s[..|SplitDot(s).0| + 1 + |SplitDot(s).1|]
  {
    var head := BeforeDot(s);
    BeforeDotPrefix(s);
    assert |head| < |s|;
    var rest := s[|head| + 1..];
    BeforeDotPrefix(rest);
    var field := BeforeDot(rest);
    assert s[..|head| + 1 + |field|] == head + "." + field;
  }

  // ---------------------------------------------------------------------
  // Classification.

  datatype Literal =
    | LEmpty                            // an empty token
    | LStr(s: string)                   // leading quote
    | LInt(i: int)                      // all digits, or a leading minus
    | LBadInt                           // leading minus that `int()` rejects
    | LBool(b: bool)
    | LField(obj: string, field: string)
    | LName(name: string)

  /** Classify an operand token in the order `_get_value` tests it. */
  function Classify(tok: Token): Literal
  {
    match tok
    case Word(w) =>
      if |w| == 0 then LEmpty
      else if w[0] == '"' then LStr(StripQuotes(w))
      else if AllDigits(w) || w[0] == '-' then
        (match ParseInt(w) case Some(i) => LInt(i) case None => LBadInt)
      else if w == KeywordText(TrueKw) || w == KeywordText(FalseKw) then LBool(w == KeywordText(TrueKw))
      else if '.' in w then LField(SplitDot(w).0, SplitDot(w).1)
      else LName(w)
    case Kw(TrueKw) => LBool(true)
    case Kw(FalseKw) => LBool(false)
    case _ => LName(TokenText(tok))
  }

  /** What each classification says about the token. */
  lemma ClassifyCases(tok: Token)
    ensures Classify(tok).LEmpty? <==> tok == Word("")
    ensures Classify(tok).LBool? <==> tok in {Kw(TrueKw), Kw(FalseKw), Word("true"), Word("false")}
    ensures Classify(tok).LBool? ==> (Classify(tok).b <==> tok in {Kw(TrueKw), Word("true")})
    ensures (Classify(tok).LInt? || Classify(tok).LBadInt?) <==>
              tok.Word? && |tok.w| > 0 && tok.w[0] != '"' && (AllDigits(tok.w) || tok.w[0] == '-')
    ensures Classify(tok).LInt? ==> ParseInt(tok.w) == Some(Classify(tok).i)
    ensures Classify(tok).LBadInt? ==> ParseInt(tok.w).None?
    ensures Classify(tok).LStr? ==> tok.Word? && |tok.w| > 0 && tok.w[0] == '"' && Classify(tok).s == StripQuotes(tok.w)
    ensures Classify(tok).LField? ==>
              tok.Word? && '.' in tok.w && tok.w !in {"true", "false"} && (Classify(tok).obj, Classify(tok).field) == SplitDot(tok.w)
    ensures Classify(tok).LName? && tok.Word? ==> '.' !in tok.w && Classify(tok).name == tok.w
  {
  }

  /** Every integer written in decimal is read back as that integer. */
  lemma IntLiteralRoundTrip(i: int)
    ensures Classify(Word(ShowInt(i))) == LInt(i)
  {
    ParseShowInt(i);
    var w := ShowInt(i);
    if i >= 0 {
      assert IsDigit(w[0]);
    }
  }

  /** A quoted literal denotes the text between its quotes. */
  lemma StringLiteralRoundTrip(s: string)
    requires |s| == 0 || (s[0] != '"' && s[|s| - 1] != '"')
    ensures Classify(Word("\"" + s + "\"")) == LStr(s)
  {
    StripQuotedLiteral(s);
  }

  /** A minus followed by something other than digits is not an integer,
      and the conversion raises instead of falling back to a name. */
  lemma BadMinusLiteral()
    ensures Classify(Word("-x")) == LBadInt
    ensures Classify(Word("-")) == LBadInt
    ensures Classify(Word("-12")) == LInt(-12)
  {
    assert !IsDigit('-');
    assert "-12"[1..] == "12";
    assert DigitsValue("12") == 12 by {
      assert "12"[..1] == "1";
      assert "1"[..0] == "";
    }
  }

  /** The value a literal denotes; `None` for tokens that need the
      environment (names, object fields) and for the empty token. */
  function LiteralValue(l: Literal): (r: Option<Res<Content>>)
    ensures r.Some? <==> l.LStr? || l.LInt? || l.LBadInt? || l.LBool?
    ensures r.Some? && r.value.Ok? ==> Tagged(r.value.value)
    ensures r == Some(Crash) <==> l.LBadInt?
  {
    match l
    case LStr(s) => Some(Ok(Content(STRING, StrV(s))))
    case LInt(i) => Some(Ok(Content(INT, IntV(i))))
    case LBool(b) => Some(Ok(Content(BOOL, BoolV(b))))
    case LBadInt => Some(Crash)
    case _ => None
  }
}
