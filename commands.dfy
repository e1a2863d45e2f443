/**
 * The slash-command branch of `sendMessage`: the trimmed input is split at
 * runs of white space, and the tokens select an SQL wrapper, a Python `add`
 * snippet or the "Unknown command." reply.
 *
 * JavaScript's `Number()` is modelled on decimal integers only: an optional
 * sign and one or more ASCII digits (and the empty string, which is 0).
 */
module Commands {
  import opened Text

  datatype Option<T> = None | Some(value: T)

  const UnknownCommand := "Unknown command."
  const InvalidNumbers := "# Invalid input: numbers required"

  predicate NoSpace(s: string) {
    forall i | 0 <= i < |s| :: !IsSpace(s[i])
  }

  /** `text.split(/\s+/)`: the pieces between maximal runs of white space,
      with an empty piece before leading and after trailing white space. */
  function SplitWhitespace(s: string): (parts: seq<string>)
    ensures |parts| >= 1
    ensures forall i | 0 <= i < |parts| :: NoSpace(parts[i])
    decreases |s|
  {
    if s == [] then [""]
    else if IsSpace(s[0]) then [""] + SplitWhitespace(TrimStart(s))
    else
      var rest := SplitWhitespace(s[1..]);
      [[s[0]] + rest[0]] + rest[1..]
  }

  lemma {:induction false} SplitOfWord(w: string)
    requires NoSpace(w)
    ensures SplitWhitespace(w) == [w]
  {
    if w != [] {
      SplitOfWord(w[1..]);
      assert [w[0]] + w[1..] == w;
    }
  }

  /** One white-space character between a word and text that does not
      begin with white space splits the pieces in two. */
  lemma {:induction false} SplitAtSpace(a: string, c: char, b: string)
    requires NoSpace(a) && IsSpace(c)
    requires b == [] || !IsSpace(b[0])
    ensures SplitWhitespace(a + [c] + b) == SplitWhitespace(a) + SplitWhitespace(b)
  {
    var u := a + [c] + b;
    if a == [] {
      assert u == [c] + b;
      assert TrimStart(u) == TrimStart(b) == b;
    } else {
      assert u[0] == a[0];
      assert u[1..] == a[1..] + [c] + b;
      SplitAtSpace(a[1..], c, b);
    }
  }

  /** A run of white space followed by text that does not begin with white
      space is skipped whole. */
  lemma {:induction false} LeadingSpacesOfRun(w: string, b: string)
    requires forall i | 0 <= i < |w| :: IsSpace(w[i])
    requires b == [] || !IsSpace(b[0])
    ensures LeadingSpaces(w + b) == |w|
  {
    if w != [] {
      LeadingSpacesOfRun(w[1..], b);
      assert (w + b)[1..] == w[1..] + b;
    } else {
      assert w + b == b;
    }
  }

  /** A run of one or more white-space characters between a word and text
      that does not begin with white space is one separator: the pieces
      split in two. */
  lemma {:induction false} SplitAtSpaceRun(a: string, w: string, b: string)
    requires NoSpace(a)
    requires w != [] && forall i | 0 <= i < |w| :: IsSpace(w[i])
    requires b == [] || !IsSpace(b[0])
    ensures SplitWhitespace(a + w + b) == SplitWhitespace(a) + SplitWhitespace(b)
  {
    var u := a + w + b;
    if a == [] {
      assert u == w + b;
      assert IsSpace(u[0]);
      LeadingSpacesOfRun(w, b);
      assert TrimStart(u) == b;
    } else {
      assert u[0] == a[0];
      assert u[1..] == a[1..] + w + b;
      SplitAtSpaceRun(a[1..], w, b);
    }
  }

  /** Words joined with single spaces split back into the same words. */
  lemma {:induction false} SplitJoinRoundTrip(ws: seq<string>)
    requires |ws| >= 1
    requires forall i | 0 <= i < |ws| :: ws[i] != [] && NoSpace(ws[i])
    ensures SplitWhitespace(Join(ws, " ")) == ws
  {
    if |ws| == 1 {
      SplitOfWord(ws[0]);
    } else {
      var rest := Join(ws[1..], " ");
      SplitJoinRoundTrip(ws[1..]);
      assert rest != [] && rest[0] == ws[1][0] by {
        JoinStartsWithFirst(ws[1..], " ");
      }
      assert Join(ws, " ") == ws[0] + [' '] + rest;
      calc {
        SplitWhitespace(Join(ws, " "));
        == { SplitAtSpace(ws[0], ' ', rest); }
        SplitWhitespace(ws[0]) + SplitWhitespace(rest);
        == { SplitOfWord(ws[0]); }
        [ws[0]] + ws[1..];
      }
    }
  }

  lemma {:induction false} JoinStartsWithFirst(ws: seq<string>, sep: string)
    requires |ws| >= 1 && ws[0] != []
    ensures Join(ws, sep) != [] && Join(ws, sep)[0] == ws[0][0]
  {
  }

  /** A trimmed, non-empty input splits into non-empty tokens. */
  lemma {:induction false} SplitOfTrimmedHasNoEmptyPiece(s: string)
    requires s != [] && Trimmed(s)
    ensures forall i | 0 <= i < |SplitWhitespace(s)| :: SplitWhitespace(s)[i] != []
    decreases |s|
  {
    var parts := SplitWhitespace(s);
    if |s| == 1 {
      SplitOfWord(s);
    } else {
      var rest := SplitWhitespace(s[1..]);
      var t := s[1..];
      assert t != [] && !IsSpace(t[|t| - 1]);
      if IsSpace(t[0]) {
        var u := TrimStart(t);
        assert u != [] by {
          LeadingSpacesAreSpaces(t);
        }
        assert Trimmed(u) by {
          assert u[|u| - 1] == t[|t| - 1];
        }
        SplitOfTrimmedHasNoEmptyPiece(u);
        assert rest == [""] + SplitWhitespace(u);
      } else {
        SplitOfTrimmedHasNoEmptyPiece(t);
      }
    }
  }

  // ---- The SQL command ----

  /** `/generate sql <query...>`: at least three tokens. */
  predicate IsSqlCommand(parts: seq<string>) {
    |parts| >= 3 && parts[0] == "/generate" && parts[1] == "sql"
  }

  /** The SQL reply: the query closed with ";", prefixed with "SELECT "
      unless it already begins with "select" in any case. */
  function SqlStatement(query: string): (r: string)
    ensures |r| > 0 && r[|r| - 1] == ';'
    ensures StartsWith(Lower(r), "select")
    ensures |query| + 1 <= |r| && r[|r| - |query| - 1..] == query + ";"
    ensures StartsWith(Lower(query), "select") <==> r == query + ";"
    ensures !StartsWith(Lower(query), "select") ==> r == "SELECT " + query + ";"
  {
    LowerAppend("SELECT ", query + ";");
    LowerAppend(query, ";");
    assert Lower("SELECT ") == "select ";
    if StartsWith(Lower(query), "select") then query + ";"
    else "SELECT " + query + ";"
  }

  /** Wrapping the statement again, without its ";", changes nothing. */
  lemma SqlStatementIdempotent(query: string)
    ensures var r := SqlStatement(query); SqlStatement(r[..|r| - 1]) == r
  {
    var r := SqlStatement(query);
    var body := r[..|r| - 1];
    assert r == body + ";";
    LowerAppend(body, ";");
    assert Lower(body)[..6] == Lower(r)[..6];
  }

  // ---- The Python add command ----

  /** `/generate python add <a> <b>`: exactly five tokens. No token list is
      both commands, so the order of the two tests does not matter. */
  predicate IsAddCommand(parts: seq<string>)
    ensures IsAddCommand(parts) ==> !IsSqlCommand(parts)
  {
    |parts| == 5 && parts[0] == "/generate" && parts[1] == "python" && parts[2] == "add"
  }

  predicate IsDigit(c: char) {
    '0' <= c <= '9'
  }

  predicate AllDigits(s: string) {
    forall i | 0 <= i < |s| :: IsDigit(s[i])
  }

  function DigitValue(c: char): nat
    requires IsDigit(c)
  {
    c as int - '0' as int
  }

  function DigitChar(d: nat): (c: char)
    requires d < 10
    ensures IsDigit(c) && DigitValue(c) == d
  {
    ('0' as int + d) as char
  }

  /** The value of a string of decimal digits. */
  function DecimalValue(ds: string): nat
    requires AllDigits(ds)
  {
    if ds == [] then 0
    else DecimalValue(ds[..|ds| - 1]) * 10 + DigitValue(ds[|ds| - 1])
  }

  /** The tokens the restricted `Number()` accepts: the empty string, or
      one or more decimal digits after an optional sign. */
  predicate IsNumeral(token: string) {
    || token == []
    || AllDigits(token)
    || (|token| >= 2 && (token[0] == '-' || token[0] == '+') && AllDigits(token[1..]))
  }

  /** `Number(token)` restricted to decimal integers: `None` where
      `isNaN` would hold. Only a leading minus sign makes the value
      negative. */
  function ParseInteger(token: string): (r: Option<int>)
    ensures r.Some? <==> IsNumeral(token)
    ensures r.Some? && r.value < 0 ==> token != [] && token[0] == '-'
  {
    if token == [] then Some(0)
    else if token[0] == '-' || token[0] == '+' then
      var digits := token[1..];
      if digits != [] && AllDigits(digits) then
        Some(if token[0] == '-' then -(DecimalValue(digits) as int) else DecimalValue(digits))
      else None
    else if AllDigits(token) then Some(DecimalValue(token))
    else None
  }

  /** The decimal digits of `n`, with no leading zero. */
  function Decimal(n: nat): (ds: string)
    ensures ds != [] && AllDigits(ds)
  {
    if n < 10 then [DigitChar(n)] else Decimal(n / 10) + [DigitChar(n % 10)]
  }

  /** `${n}` for an integer `n`: a numeral that starts with '-' exactly when
      `n` is negative. */
  function FormatInteger(n: int): (s: string)
    ensures s != [] && IsNumeral(s)
    ensures s[0] == '-' <==> n < 0
  {
    if n < 0 then "-" + Decimal(-n) else Decimal(n)
  }

  lemma {:induction false} DecimalValueOfDecimal(n: nat)
    ensures DecimalValue(Decimal(n)) == n
  {
    if n >= 10 {
      DecimalValueOfDecimal(n / 10);
      var ds := Decimal(n);
      assert ds[..|ds| - 1] == Decimal(n / 10);
    }
  }

  /** Parsing a formatted integer gives the integer back. */
  lemma FormatThenParse(n: int)
    ensures ParseInteger(FormatInteger(n)) == Some(n)
  {
    if n < 0 {
      DecimalValueOfDecimal(-n);
      assert FormatInteger(n)[1..] == Decimal(-n);
    } else {
      DecimalValueOfDecimal(n);
      assert !IsDigit('-') && !IsDigit('+');
      assert FormatInteger(n)[0] != '-' && FormatInteger(n)[0] != '+';
    }
  }

  /** Digits as `${n}` writes them: "0", or no leading zero. */
  predicate IsCanonicalDigits(ds: string) {
    ds != [] && AllDigits(ds) && (ds[0] == '0' ==> |ds| == 1)
  }

  /** An integer token as `${n}` writes it. */
  predicate IsCanonicalInteger(token: string) {
    || IsCanonicalDigits(token)
    || (|token| >= 2 && token[0] == '-' && IsCanonicalDigits(token[1..]) && token[1] != '0')
  }

  lemma {:induction false} LeadingDigitBoundsValue(ds: string)
    requires ds != [] && AllDigits(ds) && ds[0] != '0'
    ensures DecimalValue(ds) >= 1
    ensures |ds| >= 2 ==> DecimalValue(ds) >= 10
  {
    if |ds| >= 2 {
      var prefix := ds[..|ds| - 1];
      assert prefix[0] == ds[0];
      LeadingDigitBoundsValue(prefix);
    }
  }

  lemma {:induction false} DecimalOfDecimalValue(ds: string)
    requires IsCanonicalDigits(ds)
    ensures Decimal(DecimalValue(ds)) == ds
    decreases |ds|
  {
    if |ds| >= 2 {
      var prefix := ds[..|ds| - 1];
      assert prefix[0] == ds[0];
      LeadingDigitBoundsValue(ds);
      DecimalOfDecimalValue(prefix);
      var v := DecimalValue(ds);
      assert v / 10 == DecimalValue(prefix);
      assert v % 10 == DigitValue(ds[|ds| - 1]);
      assert ds == prefix + [ds[|ds| - 1]];
    }
  }

  /** A canonical integer token is written back unchanged: the snippet shows
      the operands as the user typed them. */
  lemma ParseThenFormat(token: string)
    requires IsCanonicalInteger(token)
    ensures ParseInteger(token).Some?
    ensures FormatInteger(ParseInteger(token).value) == token
  {
    if IsCanonicalDigits(token) {
      DecimalOfDecimalValue(token);
    } else {
      var digits := token[1..];
      DecimalOfDecimalValue(digits);
      LeadingDigitBoundsValue(digits);
      assert token == "-" + digits;
    }
  }

  /** The snippet around the call: the definition of `add`, the assignment
      of the call to `result`, and the line that prints it. */
  const AddSignature := "def add(a, b):"
  const AddBody := "\n    return a + b\n\nresult = "
  const AddHead := AddSignature + AddBody
  const AddTail := "\nprint('Result:', result)"

  /** The call the snippet makes: `add(<a>, <b>)`. */
  function AddCall(a: int, b: int): string {
    "add(" + FormatInteger(a) + ", " + FormatInteger(b) + ")"
  }

  /** The Python snippet for two parsed numbers. */
  function AddSnippet(a: int, b: int): (r: string)
    ensures StartsWith(r, AddSignature)
    ensures OccursAt(r, AddCall(a, b), |AddHead|)
  {
    var call := AddCall(a, b);
    Surrounded(AddHead, call, AddTail);
    Surrounded(AddSignature, AddBody, call + AddTail);
    AddHead + call + AddTail
  }

  predicate OccursAt(s: string, part: string, k: nat) {
    k + |part| <= |s| && s[k..k + |part|] == part
  }

  /** `y` sits at offset `|x|` in `x + y + z`, after its prefix `x`. */
  lemma Surrounded(x: string, y: string, z: string)
    ensures StartsWith(x + y + z, x)
    ensures OccursAt(x + y + z, y, |x|)
  {
    var s := x + y + z;
    assert s[..|x|] == x;
    assert s[|x|..|x| + |y|] == y;
  }

  ghost predicate Contains(s: string, part: string) {
    exists k: nat :: OccursAt(s, part, k)
  }

  // ---- Dispatch ----

  /** The reply to a `/`-prefixed input. */
  function CommandReply(text: string): (r: string)
    ensures var parts := SplitWhitespace(text);
      && (r == UnknownCommand <==> !IsSqlCommand(parts) && !IsAddCommand(parts))
      && (IsSqlCommand(parts) ==> |r| > 0 && r[|r| - 1] == ';' && StartsWith(Lower(r), "select"))
      && (IsAddCommand(parts) ==>
            (r == InvalidNumbers <==> ParseInteger(parts[3]).None? || ParseInteger(parts[4]).None?))
  {
    var parts := SplitWhitespace(text);
    if IsSqlCommand(parts) then
      SqlStatement(Join(parts[2..], " "))
    else if IsAddCommand(parts) then
      var a, b := ParseInteger(parts[3]), ParseInteger(parts[4]);
      if a.None? || b.None? then InvalidNumbers else AddSnippet(a.value, b.value)
    else UnknownCommand
  }

  /** The SQL query is the tokens after `sql` joined by single spaces. */
  lemma SqlReply(text: string)
    requires IsSqlCommand(SplitWhitespace(text))
    ensures var query := Join(SplitWhitespace(text)[2..], " ");
      CommandReply(text) == SqlStatement(query)
  {
  }

  /** An add command whose operands both parse gets the snippet that defines
      `add` and calls it on the parsed values. */
  lemma AddReplyCallsAddOnParsed(text: string)
    requires var parts := SplitWhitespace(text);
      IsAddCommand(parts) && ParseInteger(parts[3]).Some? && ParseInteger(parts[4]).Some?
    ensures var parts, r := SplitWhitespace(text), CommandReply(text);
      && StartsWith(r, AddSignature)
      && Contains(r, AddCall(ParseInteger(parts[3]).value, ParseInteger(parts[4]).value))
  {
    var parts := SplitWhitespace(text);
    var a, b := ParseInteger(parts[3]).value, ParseInteger(parts[4]).value;
    var r := CommandReply(text);
    assert r == AddSnippet(a, b);
    assert OccursAt(r, AddCall(a, b), |AddHead|);
  }

  /** Two canonical integers give the snippet that calls `add` on them as
      typed. */
  lemma AddReplyCallsAdd(text: string)
    requires var parts := SplitWhitespace(text);
      IsAddCommand(parts) && IsCanonicalInteger(parts[3]) && IsCanonicalInteger(parts[4])
    ensures var parts := SplitWhitespace(text);
      Contains(CommandReply(text), "add(" + parts[3] + ", " + parts[4] + ")")
  {
    var parts := SplitWhitespace(text);
    ParseThenFormat(parts[3]);
    ParseThenFormat(parts[4]);
    AddReplyCallsAddOnParsed(text);
  }
}
