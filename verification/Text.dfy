/** String primitives the config editor is built on: whitespace trimming, splitting a file into
    lines and joining it back, and Go's `%q` quoting. */
module Text {

  datatype Option<+T> = None | Some(value: T)

  // ---------------------------------------------------------------- whitespace

  /** The code points Go's `unicode.IsSpace` accepts. */
  predicate IsSpace(c: char) {
    var x := c as int;
    9 <= x <= 13 || x == 0x20 || x == 0x85 || x == 0xA0 || x == 0x1680 || 0x2000 <= x <= 0x200A
    || x == 0x2028 || x == 0x2029 || x == 0x202F || x == 0x205F || x == 0x3000
  }

  /** Neither end of `s` is whitespace; the empty string counts. */
  predicate Trimmed(s: string) {
    s == "" || (!IsSpace(s[0]) && !IsSpace(s[|s| - 1]))
  }

  function TrimLeft(s: string): (r: string)
    ensures r == "" || !IsSpace(r[0])
  {
    if s != "" && IsSpace(s[0]) then TrimLeft(s[1..]) else s
  }

  function TrimRight(s: string): (r: string)
    ensures r == "" || !IsSpace(r[|r| - 1])
  {
    if s != "" && IsSpace(s[|s| - 1]) then TrimRight(s[..|s| - 1]) else s
  }

  function TrimSpace(s: string): string {
    TrimRight(TrimLeft(s))
  }

  lemma {:induction false} TrimLeftNoNewline(s: string)
    requires NoNewline(s)
    ensures NoNewline(TrimLeft(s))
  {
    if s != "" && IsSpace(s[0]) {
      TrimLeftNoNewline(s[1..]);
    }
  }

  lemma {:induction false} TrimRightNoNewline(s: string)
    requires NoNewline(s)
    ensures NoNewline(TrimRight(s))
  {
    if s != "" && IsSpace(s[|s| - 1]) {
      TrimRightNoNewline(s[..|s| - 1]);
    }
  }

  lemma {:induction false} TrimNoNewline(s: string)
    requires NoNewline(s)
    ensures NoNewline(TrimSpace(s))
  {
    TrimLeftNoNewline(s);
    TrimRightNoNewline(TrimLeft(s));
  }

  lemma {:induction false} TrimTrimmed(s: string)
    requires Trimmed(s)
    ensures TrimSpace(s) == s
  {
  }

  /** One space in front of, or behind, a trimmed string is trimmed away again. */
  lemma {:induction false} TrimOneSpace(s: string)
    requires Trimmed(s)
    ensures TrimSpace(s + " ") == s
    ensures TrimSpace(" " + s) == s
  {
    assert (" " + s)[1..] == s;
    assert TrimLeft(" " + s) == s;
    assert (s + " ")[..|s|] == s;
    if s == "" {
      assert s + " " == " ";
      assert TrimLeft(" ") == TrimLeft("");
    } else {
      assert TrimLeft(s + " ") == s + " ";
      assert TrimRight(s + " ") == TrimRight(s);
    }
  }

  // ---------------------------------------------------------------- lines

  predicate NoNewline(s: string) {
    '\n' !in s
  }

  predicate LinesOk(ls: seq<string>) {
    forall i :: 0 <= i < |ls| ==> NoNewline(ls[i])
  }

  /** `strings.Index` for one character, with `|s|` for "not found". */
  function IndexOf(s: string, c: char): (i: nat)
    ensures i <= |s|
    ensures i < |s| ==> s[i] == c
    ensures forall j :: 0 <= j < i ==> s[j] != c
  {
    if s == "" || s[0] == c then 0 else 1 + IndexOf(s[1..], c)
  }

  lemma {:induction false} IndexOfUnique(s: string, c: char, i: nat)
    requires i < |s| && s[i] == c && forall j :: 0 <= j < i ==> s[j] != c
    ensures IndexOf(s, c) == i
  {
    var k := IndexOf(s, c);
    assert !(k < i) && !(i < k);
  }

  /** `strings.Split(s, "\n")`: never empty, one element more than there are newlines. */
  function Split(s: string): (r: seq<string>)
    ensures |r| > 0
    decreases |s|
  {
    var i := IndexOf(s, '\n');
    if i == |s| then [s] else [s[..i]] + Split(s[i + 1..])
  }

  /** `strings.Join(ls, "\n")`. */
  function Join(ls: seq<string>): string {
    if |ls| == 0 then "" else if |ls| == 1 then ls[0] else ls[0] + "\n" + Join(ls[1..])
  }

  lemma {:induction false} SplitLinesOk(s: string)
    ensures LinesOk(Split(s))
    decreases |s|
  {
    var i := IndexOf(s, '\n');
    if i < |s| {
      SplitLinesOk(s[i + 1..]);
    }
  }

  lemma {:induction false} JoinSplit(s: string)
    ensures Join(Split(s)) == s
    decreases |s|
  {
    hide IndexOf;
    var i := IndexOf(s, '\n');
    if i < |s| {
      var rest := Split(s[i + 1..]);
      JoinSplit(s[i + 1..]);
      JoinCons(s[..i], rest);
      assert s == s[..i] + "\n" + s[i + 1..];
      hide Join, Split;
    }
  }

  lemma {:induction false} JoinCons(l: string, rest: seq<string>)
    requires |rest| > 0
    ensures Join([l] + rest) == l + "\n" + Join(rest)
  {
    assert ([l] + rest)[1..] == rest;
  }

  lemma {:induction false} SplitNoNewline(s: string)
    requires NoNewline(s)
    ensures Split(s) == [s]
  {
  }

  /** A newline between two texts is exactly a line boundary. */
  lemma {:induction false} SplitConcat(s: string, t: string)
    ensures Split(s + "\n" + t) == Split(s) + Split(t)
    decreases |s|
  {
    hide IndexOf;
    var u, i := s + "\n" + t, IndexOf(s, '\n');
    if i == |s| {
      IndexOfUnique(u, '\n', |s|);
      assert u[..|s|] == s && u[|s| + 1..] == t;
    } else {
      IndexOfUnique(u, '\n', i);
      assert u[..i] == s[..i] && u[i + 1..] == s[i + 1..] + "\n" + t;
      SplitConcat(s[i + 1..], t);
      assert [s[..i]] + (Split(s[i + 1..]) + Split(t)) == [s[..i]] + Split(s[i + 1..]) + Split(t);
    }
  }

  lemma {:induction false} SplitJoin(ls: seq<string>)
    requires |ls| > 0 && LinesOk(ls)
    ensures Split(Join(ls)) == ls
  {
    hide Split;
    SplitNoNewline(ls[0]);
    if |ls| > 1 {
      SplitJoin(ls[1..]);
      SplitConcat(ls[0], Join(ls[1..]));
      assert ls == [ls[0]] + ls[1..];
    }
  }

  // ---------------------------------------------------------------- quoting

  function HexDigit(d: int): (c: char)
    requires 0 <= d < 16
    ensures c != '"' && c != '\\' && c != '#' && c != '\n'
  {
    if d < 10 then (48 + d) as char else (87 + d) as char
  }

  /** How `strconv.Quote` writes one code point. Every code point above U+00FF is taken to be printable. */
  function Escape(c: char): (r: string)
    ensures r == [c] || (|r| >= 2 && r[0] == '\\')
  {
    var x := c as int;
    if c == '"' then "\\\""
    else if c == '\\' then "\\\\"
    else if x == 7 then "\\a"
    else if x == 8 then "\\b"
    else if x == 9 then "\\t"
    else if x == 10 then "\\n"
    else if x == 11 then "\\v"
    else if x == 12 then "\\f"
    else if x == 13 then "\\r"
    else if x < 0x20 || x == 0x7F then ['\\', 'x', HexDigit(x / 16), HexDigit(x % 16)]
    else if 0x80 <= x <= 0xA0 || x == 0xAD then ['\\', 'u', '0', '0', HexDigit(x / 16), HexDigit(x % 16)]
    else [c]
  }

  function EscapeAll(s: string): (r: string)
    ensures s == "" ==> r == ""
  {
    if s == "" then "" else Escape(s[0]) + EscapeAll(s[1..])
  }

  /** Go's `fmt.Sprintf("%q", s)`. */
  function Quote(s: string): (r: string)
    ensures |r| >= 2 && r[0] == '"' && r[|r| - 1] == '"'
  {
    "\"" + EscapeAll(s) + "\""
  }

  /** Quoting changes nothing between the quotation marks. */
  predicate QuoteSafe(s: string) {
    forall i :: 0 <= i < |s| ==> Escape(s[i]) == [s[i]]
  }

  lemma {:induction false} EscapeSafe(s: string)
    requires QuoteSafe(s)
    ensures EscapeAll(s) == s
  {
    if s != "" {
      EscapeSafe(s[1..]);
      assert s == [s[0]] + s[1..];
    }
  }

  lemma {:induction false} EscapeGrows(s: string)
    ensures |EscapeAll(s)| >= |s|
    ensures !QuoteSafe(s) ==> |EscapeAll(s)| > |s|
  {
    if s != "" {
      EscapeGrows(s[1..]);
      if Escape(s[0]) == [s[0]] && QuoteSafe(s[1..]) {
        forall i | 0 <= i < |s| ensures Escape(s[i]) == [s[i]] {
          if i > 0 { assert s[i] == s[1..][i - 1]; }
        }
      }
    }
  }

  lemma {:induction false} EscapeNoNewline(s: string)
    ensures NoNewline(EscapeAll(s))
  {
    if s != "" {
      EscapeNoNewline(s[1..]);
      assert '\n' !in Escape(s[0]);
    }
  }

  lemma {:induction false} QuoteNoNewline(s: string)
    ensures NoNewline(Quote(s))
  {
    EscapeNoNewline(s);
  }

  // ---------------------------------------------------------------- unquoting

  /** The value of a lower-case hexadecimal digit. */
  function HexValue(c: char): Option<nat> {
    if '0' <= c <= '9' then Some(c as int - '0' as int)
    else if 'a' <= c <= 'f' then Some(c as int - 'a' as int + 10)
    else None
  }

  function HexPair(s: string): Option<char> {
    if |s| < 2 || HexValue(s[0]).None? || HexValue(s[1]).None? then None
    else Some((16 * HexValue(s[0]).value + HexValue(s[1]).value) as char)
  }

  /** The escape sequence at the start of a text behind its backslash: the character, and how long the sequence is. */
  function Unescape(s: string): Option<(char, nat)> {
    if s == "" then None
    else if s[0] == '"' then Some(('"', 1))
    else if s[0] == '\\' then Some(('\\', 1))
    else if s[0] == 'a' then Some(('\U{07}', 1))
    else if s[0] == 'b' then Some(('\U{08}', 1))
    else if s[0] == 't' then Some(('\t', 1))
    else if s[0] == 'n' then Some(('\n', 1))
    else if s[0] == 'v' then Some(('\U{0B}', 1))
    else if s[0] == 'f' then Some(('\U{0C}', 1))
    else if s[0] == 'r' then Some(('\r', 1))
    else if s[0] == 'x' then
      if HexPair(s[1..]).None? then None else Some((HexPair(s[1..]).value, 3))
    else if s[0] == 'u' && |s| >= 5 && s[1] == '0' && s[2] == '0' then
      if HexPair(s[3..]).None? then None else Some((HexPair(s[3..]).value, 5))
    else None
  }

  /** What the text between the quotation marks stands for; a bare quotation mark is an error. */
  function UnescapeAll(s: string): Option<string>
    decreases |s|
  {
    if s == "" then Some("")
    else if s[0] == '"' then None
    else if s[0] != '\\' then
      match UnescapeAll(s[1..])
      case None => None
      case Some(rest) => Some([s[0]] + rest)
    else
      match Unescape(s[1..])
      case None => None
      case Some((c, n)) =>
        if 1 + n > |s| then None
        else match UnescapeAll(s[1 + n..])
          case None => None
          case Some(rest) => Some([c] + rest)
  }

  /** `strconv.Unquote` of a double-quoted text, for the escapes that quoting writes. */
  function Unquote(f: string): Option<string> {
    if |f| < 2 || f[0] != '"' || f[|f| - 1] != '"' then None else UnescapeAll(f[1..|f| - 1])
  }

  lemma {:induction false} HexReads(x: nat)
    requires x < 256
    ensures forall rest: string :: HexPair([HexDigit(x / 16), HexDigit(x % 16)] + rest) == Some(x as char)
  {
  }

  /** One escaped character is read back, whatever follows. */
  lemma {:induction false} UnescapeOne(c: char, rest: string)
    requires UnescapeAll(rest).Some?
    ensures UnescapeAll(Escape(c) + rest) == Some([c] + UnescapeAll(rest).value)
  {
    var e := Escape(c);
    var s := e + rest;
    if e == [c] {
      assert s[1..] == rest;
    } else {
      UnescapeTail(c, rest);
      assert s[1..] == e[1..] + rest;
      assert s[|e|..] == rest;
    }
  }

  lemma {:induction false} UnescapeTail(c: char, rest: string)
    requires Escape(c) != [c]
    ensures Unescape(Escape(c)[1..] + rest) == Some((c, |Escape(c)| - 1))
  {
    var e, x := Escape(c), c as int;
    var t := e[1..] + rest;
    if |e| == 4 {
      HexReads(x);
      assert t[1..] == [HexDigit(x / 16), HexDigit(x % 16)] + rest;
    } else if |e| == 6 {
      HexReads(x);
      assert t[3..] == [HexDigit(x / 16), HexDigit(x % 16)] + rest;
    }
  }

  lemma {:induction false} UnescapeEscaped(s: string)
    ensures UnescapeAll(EscapeAll(s)) == Some(s)
  {
    if s != "" {
      UnescapeEscaped(s[1..]);
      UnescapeOne(s[0], EscapeAll(s[1..]));
      assert [s[0]] + s[1..] == s;
    }
  }

  /** Every text is read back from its quoted form. */
  lemma {:induction false} UnquoteQuote(s: string)
    ensures Unquote(Quote(s)) == Some(s)
  {
    var f := Quote(s);
    assert f[1..|f| - 1] == EscapeAll(s);
    UnescapeEscaped(s);
  }

  /** Quoting leaves a character alone exactly if it is neither quotation mark nor backslash and is printable. */
  lemma {:induction false} EscapesExactly(c: char)
    ensures Escape(c) == [c] <==>
      c != '"' && c != '\\' && !(c as int < 0x20 || 0x7F <= c as int <= 0xA0 || c as int == 0xAD)
  {
  }

  // ---------------------------------------------------------------- blanks around a text

  /** Spaces, tabs and carriage returns, as a person types them. */
  predicate Blanks(s: string) {
    forall i :: 0 <= i < |s| ==> s[i] == ' ' || s[i] == '\t' || s[i] == '\r'
  }

  /** Trimming removes blanks on both sides and nothing else. */
  lemma {:induction false} TrimPadded(l: string, s: string, r: string)
    requires Blanks(l) && Blanks(r) && Trimmed(s)
    ensures TrimSpace(l + s + r) == s
  {
    TrimLeftPadded(l, s + r);
    assert l + (s + r) == l + s + r;
    if s == "" {
      TrimLeftPadded(r, "");
      assert r + "" == r && s + r == r;
    } else {
      assert TrimLeft(s + r) == s + r;
      TrimRightPadded(s, r);
    }
  }

  lemma {:induction false} TrimLeftPadded(l: string, s: string)
    requires Blanks(l)
    ensures TrimLeft(l + s) == TrimLeft(s)
  {
    if l == "" {
      assert l + s == s;
    } else {
      assert (l + s)[1..] == l[1..] + s;
      TrimLeftPadded(l[1..], s);
    }
  }

  lemma {:induction false} TrimRightPadded(s: string, r: string)
    requires Blanks(r)
    ensures TrimRight(s + r) == TrimRight(s)
  {
    if r == "" {
      assert s + r == s;
    } else {
      assert (s + r)[..|s + r| - 1] == s + r[..|r| - 1];
      TrimRightPadded(s, r[..|r| - 1]);
    }
  }

  // ---------------------------------------------------------------- the escapes by name

  /** The short escapes; other control characters take two hexadecimal digits, and those above U+007F four. */
  lemma {:induction false} EscapeForms(c: char)
    ensures Escape('"') == "\\\"" && Escape('\\') == "\\\\" && Escape('\t') == "\\t" && Escape('\n') == "\\n"
    ensures Escape('\r') == "\\r" && Escape('\U{07}') == "\\a" && Escape('\U{08}') == "\\b"
    ensures Escape('\U{0B}') == "\\v" && Escape('\U{0C}') == "\\f"
    ensures |Escape(c)| > 2 ==>
      if c as int < 0x80 then |Escape(c)| == 4 && Escape(c)[..2] == "\\x"
      else |Escape(c)| == 6 && Escape(c)[..4] == "\\u00"
  {
  }
}
