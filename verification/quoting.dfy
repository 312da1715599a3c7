/** Shell-token quoting for substituted values (index.ts:254-269).

    A token made only of ASCII letters, digits and `/_.-` (or the empty
    token) is passed through; anything else is written in bash's ANSI-C
    quoting, `$'...'` (section 3.1.2.4 of the Bash Reference Manual), after a
    chain of global replaces escapes backslash, single quote, form feed,
    newline, carriage return, tab, vertical tab and NUL. */
module Quoting {
  import opened Base

  const FormFeed: char := 12 as char
  const VerticalTab: char := 11 as char
  const Nul: char := 0 as char

  /** One character of the class `[a-z0-9/_.-]` matched case-insensitively. */
  predicate IsSafeChar(c: char) {
    || 'a' <= c <= 'z'
    || 'A' <= c <= 'Z'
    || '0' <= c <= '9'
    || c == '/' || c == '_' || c == '.' || c == '-'
  }

  /** The pass-through test: the regex `/^[a-z0-9/_.-]+$/i` or the empty string. */
  predicate IsSafeToken(s: string) {
    forall i | 0 <= i < |s| :: IsSafeChar(s[i])
  }

  /** `String.prototype.replace` with a global one-character pattern. */
  function ReplaceAll(s: string, c: char, rep: string): string
    decreases |s|
  {
    if s == [] then [] else (if s[0] == c then rep else [s[0]]) + ReplaceAll(s[1..], c, rep)
  }

  /** The eight replaces of index.ts:259-266, in source order: each pair is
      a character and the text every occurrence of it becomes. */
  const Replacements: seq<(char, string)> := [
    ('\\', "\\\\"), ('\'', "\\'"), (FormFeed, "\\f"), ('\n', "\\n"),
    ('\r', "\\r"), ('\t', "\\t"), (VerticalTab, "\\v"), (Nul, "\\0")]

  /** The replaces of `steps` applied one after another. */
  function ReplaceChain(s: string, steps: seq<(char, string)>): string
    decreases |steps|
  {
    if steps == [] then s else ReplaceChain(ReplaceAll(s, steps[0].0, steps[0].1), steps[1..])
  }

  /** The source's chain of `.replace` calls. */
  function ChainedReplace(s: string): string {
    ReplaceChain(s, Replacements)
  }

  /** The letter that follows the backslash in the escape of `c`, if `c` is
      one of the eight escaped characters. */
  function EscapeLetter(c: char): Option<char> {
    if c == '\\' then Some('\\')
    else if c == '\'' then Some('\'')
    else if c == FormFeed then Some('f')
    else if c == '\n' then Some('n')
    else if c == '\r' then Some('r')
    else if c == '\t' then Some('t')
    else if c == VerticalTab then Some('v')
    else if c == Nul then Some('0')
    else None
  }

  /** The reverse table: what an escape letter stands for. */
  function UnescapeLetter(l: char): Option<char> {
    if l == '\\' then Some('\\')
    else if l == '\'' then Some('\'')
    else if l == 'f' then Some(FormFeed)
    else if l == 'n' then Some('\n')
    else if l == 'r' then Some('\r')
    else if l == 't' then Some('\t')
    else if l == 'v' then Some(VerticalTab)
    else if l == '0' then Some(Nul)
    else None
  }

  /** The per-character escape map. */
  function EscapeChar(c: char): string {
    match EscapeLetter(c)
    case Some(l) => ['\\', l]
    case None => [c]
  }

  /** The escape as one map over the characters of `s`. */
  function Escape(s: string): (r: string)
    ensures |r| >= |s|
    decreases |s|
  {
    if s == [] then [] else EscapeChar(s[0]) + Escape(s[1..])
  }

  /** `quote` (index.ts:254-269). Written with the source's replace chain;
      the contract states the result through the per-character map. */
  function Quote(s: string): (r: string)
    ensures IsSafeToken(s) ==> r == s
    ensures !IsSafeToken(s) ==> r == "$'" + Escape(s) + "'"
    ensures r == s <==> IsSafeToken(s)
  {
    if IsSafeToken(s) then s
    else
      ChainedReplaceIsEscape(s);
      "$'" + ChainedReplace(s) + "'"
  }

  /** A decoder for the body of a `$'...'` word that knows exactly the eight
      escapes above; an unescaped `'` would end the word, so it is refused,
      as is a backslash followed by anything else. */
  function Unescape(t: string): (r: Option<string>)
    decreases |t|
  {
    if t == [] then Some([])
    else if t[0] == '\'' then None
    else if t[0] == '\\' then
      if |t| >= 2 && UnescapeLetter(t[1]).Some? then
        match Unescape(t[2..])
        case Some(rest) => Some([UnescapeLetter(t[1]).value] + rest)
        case None => None
      else None
    else
      match Unescape(t[1..])
      case Some(rest) => Some([t[0]] + rest)
      case None => None
  }

  /** The decoding partner of `Quote`: a `$'...'` word is unescaped with
      `Unescape`, a safe token stands for itself, anything else is refused.
      It reads `\0` as NUL whatever follows; bash does not (`ShellUnquote`). */
  function Unquote(q: string): Option<string> {
    if |q| >= 3 && q[..2] == "$'" && q[|q| - 1] == '\'' then Unescape(q[2..|q| - 1])
    else if IsSafeToken(q) then Some(q)
    else None
  }

  lemma {:induction false} ReplaceAllAppend(a: string, b: string, c: char, rep: string)
    ensures ReplaceAll(a + b, c, rep) == ReplaceAll(a, c, rep) + ReplaceAll(b, c, rep)
    decreases |a|
  {
    if a != [] {
      assert (a + b)[1..] == a[1..] + b;
      ReplaceAllAppend(a[1..], b, c, rep);
    } else {
      assert a + b == b;
    }
  }

  lemma {:induction false} ReplaceAllAbsent(s: string, c: char, rep: string)
    requires c !in s
    ensures ReplaceAll(s, c, rep) == s
    decreases |s|
  {
    if s != [] {
      assert s == [s[0]] + s[1..];
      ReplaceAllAbsent(s[1..], c, rep);
    }
  }

  lemma ReplaceAllOne(x: char, c: char, rep: string)
    ensures ReplaceAll([x], c, rep) == if x == c then rep else [x]
  {
    assert [x][1..] == [];
  }

  lemma {:induction false} ReplaceChainAppend(a: string, b: string, steps: seq<(char, string)>)
    ensures ReplaceChain(a + b, steps) == ReplaceChain(a, steps) + ReplaceChain(b, steps)
    decreases |steps|
  {
    if steps != [] {
      var (c, rep) := steps[0];
      ReplaceAllAppend(a, b, c, rep);
      ReplaceChainAppend(ReplaceAll(a, c, rep), ReplaceAll(b, c, rep), steps[1..]);
    }
  }

  /** A string none of whose characters is replaced passes the chain unchanged. */
  lemma {:induction false} ReplaceChainAbsent(s: string, steps: seq<(char, string)>)
    requires forall j | 0 <= j < |steps| :: steps[j].0 !in s
    ensures ReplaceChain(s, steps) == s
    decreases |steps|
  {
    if steps != [] {
      ReplaceAllAbsent(s, steps[0].0, steps[0].1);
      ReplaceChainAbsent(s, steps[1..]);
    }
  }

  /** A character replaced by step `k` of a chain, and by no step before,
      ends up as that step's replacement when no later step touches it. */
  lemma {:induction false} ReplaceChainStep(x: char, steps: seq<(char, string)>, k: nat)
    requires k < |steps| && steps[k].0 == x
    requires forall j | 0 <= j < k :: steps[j].0 != x
    requires forall j | k < j < |steps| :: steps[j].0 !in steps[k].1
    ensures ReplaceChain([x], steps) == steps[k].1
    decreases k
  {
    ReplaceAllOne(x, steps[0].0, steps[0].1);
    if k == 0 {
      ReplaceChainAbsent(steps[0].1, steps[1..]);
    } else {
      ReplaceChainStep(x, steps[1..], k - 1);
    }
  }

  /** The table's keys are distinct, each replacement is the escape of its
      key, and no replacement holds a key of a later step. */
  lemma ReplacementsWellFormed()
    ensures forall j, k | 0 <= k < j < |Replacements| ::
      Replacements[j].0 != Replacements[k].0 && Replacements[j].0 !in Replacements[k].1
    ensures forall k | 0 <= k < |Replacements| :: Replacements[k].1 == EscapeChar(Replacements[k].0)
    ensures forall k | 0 <= k < |Replacements| :: EscapeLetter(Replacements[k].0).Some?
  {
  }

  /** The escaped characters are exactly the table's keys. */
  lemma EscapedIsKey(x: char)
    ensures EscapeLetter(x).Some? <==> exists k | 0 <= k < |Replacements| :: Replacements[k].0 == x
  {
    ReplacementsWellFormed();
    if EscapeLetter(x).Some? {
      var k := if x == '\\' then 0 else if x == '\'' then 1 else if x == FormFeed then 2
        else if x == '\n' then 3 else if x == '\r' then 4 else if x == '\t' then 5
        else if x == VerticalTab then 6 else 7;
      assert Replacements[k].0 == x;
    }
  }

  lemma ChainedReplaceAppend(a: string, b: string)
    ensures ChainedReplace(a + b) == ChainedReplace(a) + ChainedReplace(b)
  {
    ReplaceChainAppend(a, b, Replacements);
  }

  lemma ChainedReplaceOne(x: char)
    ensures ChainedReplace([x]) == EscapeChar(x)
  {
    ReplacementsWellFormed();
    EscapedIsKey(x);
    if EscapeLetter(x).Some? {
      var k :| 0 <= k < |Replacements| && Replacements[k].0 == x;
      ReplaceChainStep(x, Replacements, k);
    } else {
      ReplaceChainAbsent([x], Replacements);
    }
  }

  /** The source's replace chain is the single per-character escape map: no
      replacement introduces a character a later replace would rewrite. */
  lemma {:induction false} ChainedReplaceIsEscape(s: string)
    ensures ChainedReplace(s) == Escape(s)
    decreases |s|
  {
    if s != [] {
      assert s == [s[0]] + s[1..];
      ChainedReplaceAppend([s[0]], s[1..]);
      ChainedReplaceOne(s[0]);
      ChainedReplaceIsEscape(s[1..]);
    } else {
      ReplaceChainAbsent(s, Replacements);
    }
  }

  lemma UnescapeCons(c: char, t: string)
    requires Unescape(t).Some?
    ensures Unescape(EscapeChar(c) + t) == Some([c] + Unescape(t).value)
  {
    var e := EscapeChar(c) + t;
    match EscapeLetter(c)
    case Some(l) =>
      assert e[0] == '\\' && e[1] == l && e[2..] == t;
    case None =>
      assert e[0] == c && e[1..] == t;
  }

  /** Unescaping undoes the escape for every string. */
  lemma {:induction false} EscapeRoundTrip(s: string)
    ensures Unescape(Escape(s)) == Some(s)
    decreases |s|
  {
    if s != [] {
      EscapeRoundTrip(s[1..]);
      UnescapeCons(s[0], Escape(s[1..]));
      assert [s[0]] + s[1..] == s;
    }
  }

  /** Under `Unquote`, every quoted token decodes to the original value,
      whichever branch `Quote` took. */
  lemma QuoteRoundTrip(s: string)
    ensures Unquote(Quote(s)) == Some(s)
  {
    var q := Quote(s);
    if !IsSafeToken(s) {
      assert q[..2] == "$'";
      assert q[2..|q| - 1] == Escape(s);
      EscapeRoundTrip(s);
    }
  }

  /** Quoting is injective: different values never become the same word. */
  lemma QuoteInjective(s: string, t: string)
    requires Quote(s) == Quote(t)
    ensures s == t
  {
    QuoteRoundTrip(s);
    QuoteRoundTrip(t);
  }

  // ----- The shell's own reading of a `$'...'` word -----

  predicate IsOctalDigit(c: char) {
    '0' <= c <= '7'
  }

  /** How many octal digits bash takes after a backslash (`\nnn`, one to
      three digits): every leading octal digit, at most three. */
  function OctalRun(t: string): (n: nat)
    ensures n <= 3 && n <= |t|
    ensures forall i | 0 <= i < n :: IsOctalDigit(t[i])
    ensures n < 3 && n < |t| ==> !IsOctalDigit(t[n])
    ensures |t| > 0 && IsOctalDigit(t[0]) ==> n >= 1
  {
    if |t| >= 1 && IsOctalDigit(t[0]) then
      if |t| >= 2 && IsOctalDigit(t[1]) then
        if |t| >= 3 && IsOctalDigit(t[2]) then 3 else 2
      else 1
    else 0
  }

  /** The value of a string of octal digits, most significant first. */
  function OctalValue(t: string): nat
    requires forall i | 0 <= i < |t| :: IsOctalDigit(t[i])
    decreases |t|
  {
    if t == [] then 0
    else
      assert IsOctalDigit(t[|t| - 1]);
      OctalValue(t[..|t| - 1]) * 8 + (t[|t| - 1] as int - '0' as int)
  }

  /** The eight-bit character an octal escape denotes. */
  function ByteChar(v: nat): char {
    (v % 256) as char
  }

  /** Bash's decoding of the body of a `$'...'` word, for the escapes a
      quoted word can contain: `\` followed by one to three octal digits is
      the character with that value, and the seven letter escapes `\\`,
      `\'`, `\f`, `\n`, `\r`, `\t`, `\v` stand for their characters. An
      unescaped `'` would end the word and is refused; the other escapes
      bash knows are not part of this model and are refused too. An escape
      of value 0 gives NUL here, where bash would end the word. */
  function ShellUnescape(t: string): (r: Option<string>)
    decreases |t|
  {
    if t == [] then Some([])
    else if t[0] == '\'' then None
    else if t[0] == '\\' then
      if |t| >= 2 && IsOctalDigit(t[1]) then
        var n := OctalRun(t[1..]);
        match ShellUnescape(t[1 + n..])
        case Some(rest) => Some([ByteChar(OctalValue(t[1..1 + n]))] + rest)
        case None => None
      else if |t| >= 2 && UnescapeLetter(t[1]).Some? then
        match ShellUnescape(t[2..])
        case Some(rest) => Some([UnescapeLetter(t[1]).value] + rest)
        case None => None
      else None
    else
      match ShellUnescape(t[1..])
      case Some(rest) => Some([t[0]] + rest)
      case None => None
  }

  /** How bash decodes one word `quote` may produce: a `$'...'` word through
      `ShellUnescape`, a plain token as itself. The empty text decodes to the
      empty string here, where bash drops an empty unquoted word and passes
      no argument at all. */
  function ShellUnquote(q: string): Option<string> {
    if |q| >= 3 && q[..2] == "$'" && q[|q| - 1] == '\'' then ShellUnescape(q[2..|q| - 1])
    else if IsSafeToken(q) then Some(q)
    else None
  }

  /** One step of `ShellUnescape` over an octal escape. */
  lemma ShellUnescapeOctal(t: string)
    requires |t| >= 2 && t[0] == '\\' && IsOctalDigit(t[1])
    ensures var n := OctalRun(t[1..]);
      ShellUnescape(t) == if ShellUnescape(t[1 + n..]).Some?
        then Some([ByteChar(OctalValue(t[1..1 + n]))] + ShellUnescape(t[1 + n..]).value)
        else None
  {
  }

  lemma ShellUnescapeCons(c: char, t: string)
    requires c != Nul && ShellUnescape(t).Some?
    ensures ShellUnescape(EscapeChar(c) + t) == Some([c] + ShellUnescape(t).value)
  {
    var e := EscapeChar(c) + t;
    match EscapeLetter(c)
    case Some(l) =>
      assert e[0] == '\\' && e[1] == l && !IsOctalDigit(l) && e[2..] == t;
    case None =>
      assert e[0] == c && e[1..] == t;
  }

  /** Without NUL, the escape is read by bash exactly as by `Unescape`. */
  lemma {:induction false} ShellReadsEscape(s: string)
    requires Nul !in s
    ensures ShellUnescape(Escape(s)) == Some(s)
    decreases |s|
  {
    if s != [] {
      assert Nul !in s[1..] by {
        assert forall c | c in s[1..] :: c in s;
      }
      ShellReadsEscape(s[1..]);
      ShellUnescapeCons(s[0], Escape(s[1..]));
      assert [s[0]] + s[1..] == s;
    }
  }

  /** For an argument without NUL, bash decodes the quoted word back to the
      argument itself. The empty argument quotes as empty text, which bash
      drops from the command line. */
  lemma ShellReadsQuote(s: string)
    requires Nul !in s
    ensures ShellUnquote(Quote(s)) == Some(s)
  {
    var q := Quote(s);
    if !IsSafeToken(s) {
      assert q[..2] == "$'";
      assert q[2..|q| - 1] == Escape(s);
      ShellReadsEscape(s);
    }
  }

  /** A NUL followed by octal digits is not read back: the two-character
      escape `\0` joins the digits after it into one octal escape, so NUL,
      `1`, `2` reads as a single newline. */
  lemma NulBeforeDigitsExample()
    ensures Quote([Nul, '1', '2']) == "$'\\012'"
    ensures ShellUnquote(Quote([Nul, '1', '2'])) == Some("\n")
  {
    var s := [Nul, '1', '2'];
    assert !IsSafeChar(s[0]);
    assert Escape(s) == "\\0" + Escape(s[1..]);
    assert Escape(s[1..]) == "1" + Escape(s[2..]);
    assert Escape(s[2..]) == "2" + Escape([]);
    var body := "\\012";
    assert OctalRun(body[1..]) == 3;
    assert body[1..4] == "012";
    assert OctalValue("012") == 10 by {
      assert "012"[..2] == "01";
      assert "01"[..1] == "0";
      assert "0"[..0] == "";
    }
    assert body[4..] == [];
    assert body[0] == '\\' && |body| >= 2 && IsOctalDigit(body[1]);
    assert ShellUnescape(body[1 + 3..]) == Some([]);
    ShellUnescapeOctal(body);
    assert OctalValue(body[1..1 + 3]) == 10;
    assert [ByteChar(10)] + [] == [ByteChar(10)];
    assert ShellUnescape(body) == Some([ByteChar(10)]);
    var q := Quote(s);
    assert q == "$'" + body + "'";
    assert q[..2] == "$'" && q[|q| - 1] == '\'';
    assert q[2..|q| - 1] == body;
  }

  /** The escape with NUL written as the full three-digit `\000`, so that no
      digit after it can join the escape. */
  function ShellEscapeChar(c: char): (r: string)
    ensures c == Nul ==> r == "\\000"
    ensures c != Nul ==> r == EscapeChar(c)
  {
    if c == Nul then "\\000" else EscapeChar(c)
  }

  function ShellEscape(s: string): (r: string)
    ensures |r| >= |s|
    decreases |s|
  {
    if s == [] then [] else ShellEscapeChar(s[0]) + ShellEscape(s[1..])
  }

  /** `quote` with NUL escaped as `\000`; every other character is escaped as
      before. */
  function QuoteForShell(s: string): (r: string)
    ensures IsSafeToken(s) ==> r == s
    ensures !IsSafeToken(s) ==> r == "$'" + ShellEscape(s) + "'"
  {
    if IsSafeToken(s) then s else "$'" + ShellEscape(s) + "'"
  }

  lemma ShellUnescapeNul(t: string)
    requires ShellUnescape(t).Some?
    ensures ShellUnescape("\\000" + t) == Some([Nul] + ShellUnescape(t).value)
  {
    var e := "\\000" + t;
    assert e[1..] == "000" + t;
    assert OctalRun(e[1..]) == 3;
    assert e[1..4] == "000";
    assert OctalValue("000") == 0 by {
      assert "000"[..2] == "00";
      assert "00"[..1] == "0";
      assert "0"[..0] == "";
    }
    assert e[4..] == t;
  }

  lemma {:induction false} ShellReadsShellEscape(s: string)
    ensures ShellUnescape(ShellEscape(s)) == Some(s)
    decreases |s|
  {
    if s != [] {
      ShellReadsShellEscape(s[1..]);
      if s[0] == Nul {
        ShellUnescapeNul(ShellEscape(s[1..]));
      } else {
        ShellUnescapeCons(s[0], ShellEscape(s[1..]));
      }
      assert [s[0]] + s[1..] == s;
    }
  }

  /** With NUL written as `\000`, bash reads every quoted word back as the
      argument itself. */
  lemma QuoteForShellRoundTrip(s: string)
    ensures ShellUnquote(QuoteForShell(s)) == Some(s)
  {
    var q := QuoteForShell(s);
    if !IsSafeToken(s) {
      assert q[..2] == "$'";
      assert q[2..|q| - 1] == ShellEscape(s);
      ShellReadsShellEscape(s);
    }
  }

  /** The two quotings agree on every argument without NUL. */
  lemma {:induction false} QuoteForShellAgrees(s: string)
    requires Nul !in s
    ensures QuoteForShell(s) == Quote(s)
  {
    ShellEscapeAgrees(s);
  }

  lemma {:induction false} ShellEscapeAgrees(s: string)
    requires Nul !in s
    ensures ShellEscape(s) == Escape(s)
    decreases |s|
  {
    if s != [] {
      assert Nul !in s[1..] by {
        assert forall c | c in s[1..] :: c in s;
      }
      ShellEscapeAgrees(s[1..]);
    }
  }
}
