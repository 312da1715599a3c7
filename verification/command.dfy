/** Turning the `$` template call into one command-line string
    (index.ts:163-173, 252), and the process-wide configuration the call
    reads (index.ts:241-249). */
module Command {
  import opened Base
  import opened Quoting
  import opened Outputs

  /** A value substituted into a template: the JavaScript values the model
      distinguishes. A list is handled by the fold, not by `substitute`. */
  datatype Value =
    | Text(s: string)
    | Undefined
    | Null
    | Boolean(b: bool)
    | Number(n: int)
    | Result(output: ProcessOutput)

  /** One `${...}` slot: a scalar, or an array of scalars (an argument vector). */
  datatype Arg = Scalar(v: Value) | List(items: seq<Value>)

  /** `substitute`: the template-literal text of a value (`${arg}`). A
      finished process renders through its `toString`, i.e. its combined
      output, untrimmed. A string is its own text; a number's text reads back
      as the number; `undefined`, `null`, booleans and numbers give non-empty
      plain tokens, which quoting leaves alone. */
  function Substitute(v: Value): (r: string)
    ensures v.Text? ==> r == v.s
    ensures v.Number? ==> ParseInt(r) == Some(v.n)
    ensures !v.Text? && !v.Result? ==> r != "" && IsSafeToken(r)
    ensures v.Undefined? ==> r == "undefined"
    ensures v.Null? ==> r == "null"
    ensures v.Boolean? ==> r == (if v.b then "true" else "false")
    ensures v.Result? ==> r == v.output.combined
  {
    match v
    case Text(s) => s
    case Undefined =>
      assert IsSafeToken("undefined") by { PlainWord("undefined"); }
      "undefined"
    case Null =>
      assert IsSafeToken("null") by { PlainWord("null"); }
      "null"
    case Boolean(b) =>
      assert IsSafeToken("true") by { PlainWord("true"); }
      assert IsSafeToken("false") by { PlainWord("false"); }
      if b then "true" else "false"
    case Number(n) =>
      IntDecimalRoundTrip(n);
      DecimalIsSafe(n);
      IntToDecimal(n)
    case Result(o) => o.ToString()
  }

  /** A word of lower-case ASCII letters is a plain token. */
  lemma PlainWord(w: string)
    requires forall i | 0 <= i < |w| :: 'a' <= w[i] <= 'z'
    ensures IsSafeToken(w)
  {
  }

  /** Decimal text, sign included, is a plain token. */
  lemma DecimalIsSafe(n: int)
    ensures IsSafeToken(IntToDecimal(n))
  {
    var d := NatToDecimal(if n < 0 then -n else n);
    assert forall i | 0 <= i < |d| :: IsSafeChar(d[i]) by {
      forall i | 0 <= i < |d| ensures IsSafeChar(d[i]) {
        assert IsDigit(d[i]);
      }
    }
    if n < 0 {
      var s := IntToDecimal(n);
      assert s == "-" + d;
      assert forall i | 1 <= i < |s| :: s[i] == d[i - 1];
    }
  }

  /** A number is substituted as decimal text that reads back as the same
      number, and quoting never alters it, negative numbers included. */
  lemma NumberSubstitution(n: int)
    ensures ParseInt(Substitute(Number(n))) == Some(n)
    ensures Render(Scalar(Number(n))) == Substitute(Number(n))
  {
  }

  /** `undefined` and the empty string pass through quoting untouched: the
      command line carries the word `undefined`, and the empty string adds
      no text at all, so bash sees no argument in that place. */
  lemma UndefinedAndEmptyRendering()
    ensures Render(Scalar(Undefined)) == "undefined"
    ensures Render(Scalar(Text(""))) == ""
  {
    var u := "undefined";
    assert forall i | 0 <= i < |u| :: IsSafeChar(u[i]);
  }

  /** A finished process is substituted through its `toString`: its whole
      combined output, trailing newline included, quoted as one word. */
  lemma ResultRendersUntrimmed(o: ProcessOutput)
    requires o.combined == "hi\n"
    ensures Render(Scalar(Result(o))) == "$'hi\\n'"
  {
    var s := o.combined;
    assert !IsSafeChar(s[2]);
    assert Escape(s) == "h" + Escape(s[1..]);
    assert Escape(s[1..]) == "i" + Escape(s[2..]);
    assert Escape(s[2..]) == "\\n" + Escape([]);
  }

  /** The quoted words of an argument vector. */
  function QuoteEach(items: seq<Value>): (r: seq<string>)
    ensures |r| == |items|
    ensures forall i | 0 <= i < |items| :: r[i] == Quote(Substitute(items[i]))
    decreases |items|
  {
    if items == [] then [] else [Quote(Substitute(items[0]))] + QuoteEach(items[1..])
  }

  /** The text one slot contributes (index.ts:167-172): a list is quoted
      element by element and joined by single spaces, a scalar is quoted. */
  function Render(a: Arg): string {
    match a
    case List(items) => Join(QuoteEach(items), " ")
    case Scalar(v) => Quote(Substitute(v))
  }

  function RenderAll(args: seq<Arg>): (r: seq<string>)
    ensures |r| == |args|
    ensures forall i | 0 <= i < |args| :: r[i] == Render(args[i])
    decreases |args|
  {
    if args == [] then [] else [Render(args[0])] + RenderAll(args[1..])
  }

  /** `Array.prototype.reduce((acc, x) => acc + x, init)`. */
  function FoldConcat(acc: string, xs: seq<string>): string
    decreases |xs|
  {
    if xs == [] then acc else FoldConcat(acc + xs[0], xs[1..])
  }

  /** Plain concatenation of the parts, front to back. */
  function Concat(xs: seq<string>): string
    decreases |xs|
  {
    if xs == [] then "" else xs[0] + Concat(xs[1..])
  }

  /** The command string as index.ts:166-173 builds it: the first template
      fragment, then every slot's rendering; the later fragments are never
      read. A tagged template always supplies one more fragment than slots. */
  function Assemble(pieces: seq<string>, args: seq<Arg>): (cmd: string)
    requires |pieces| == |args| + 1
    ensures cmd == pieces[0] + Concat(RenderAll(args))
  {
    FoldIsConcat(pieces[0], RenderAll(args));
    FoldConcat(pieces[0], RenderAll(args))
  }

  lemma {:induction false} FoldIsConcat(acc: string, xs: seq<string>)
    ensures FoldConcat(acc, xs) == acc + Concat(xs)
    decreases |xs|
  {
    if xs != [] {
      FoldIsConcat(acc + xs[0], xs[1..]);
      assert acc + xs[0] + Concat(xs[1..]) == acc + (xs[0] + Concat(xs[1..]));
    }
  }

  /** The as-written fold does not depend on any fragment after the first. */
  lemma AssembleIgnoresLaterPieces(pieces: seq<string>, pieces': seq<string>, args: seq<Arg>)
    requires |pieces| == |pieces'| == |args| + 1
    requires pieces[0] == pieces'[0]
    ensures Assemble(pieces, args) == Assemble(pieces', args)
  {
  }

  /** Fragments and slot texts in turn:
      `pieces[0] + slots[0] + pieces[1] + ... + pieces[n]`. */
  function Weave(pieces: seq<string>, slots: seq<string>): (cmd: string)
    requires |pieces| == |slots| + 1
    ensures StartsWith(cmd, pieces[0])
    decreases |slots|
  {
    if slots == [] then pieces[0]
    else
      var rest := Weave(pieces[1..], slots[1..]);
      assert (pieces[0] + slots[0] + rest)[..|pieces[0]|] == pieces[0];
      pieces[0] + slots[0] + rest
  }

  /** The interleaving the fragments call for:
      `pieces[0] + render(args[0]) + pieces[1] + ... + pieces[n]`. */
  function AssembleInterleaved(pieces: seq<string>, args: seq<Arg>): (cmd: string)
    requires |pieces| == |args| + 1
    ensures StartsWith(cmd, pieces[0])
  {
    Weave(pieces, RenderAll(args))
  }

  /** Where every fragment after the first is empty, the as-written fold and
      the interleaving agree; the fold only goes wrong when a later fragment
      carries text. */
  lemma InterleavedAgreesOnEmptyFragments(pieces: seq<string>, args: seq<Arg>)
    requires |pieces| == |args| + 1
    requires forall i | 1 <= i < |pieces| :: pieces[i] == ""
    ensures AssembleInterleaved(pieces, args) == Assemble(pieces, args)
  {
    WeaveEmptyFragments(pieces, RenderAll(args));
  }

  lemma {:induction false} WeaveEmptyFragments(pieces: seq<string>, slots: seq<string>)
    requires |pieces| == |slots| + 1
    requires forall i | 1 <= i < |pieces| :: pieces[i] == ""
    ensures Weave(pieces, slots) == pieces[0] + Concat(slots)
    decreases |slots|
  {
    if slots != [] {
      WeaveEmptyFragments(pieces[1..], slots[1..]);
      assert pieces[1..][0] == "";
      var rest := Concat(slots[1..]);
      assert Weave(pieces[1..], slots[1..]) == rest;
      assert pieces[0] + slots[0] + rest == pieces[0] + (slots[0] + rest);
    }
  }

  /** The input that shows the dropped fragments: `` $`echo ${foo} to ${bar}` ``
      builds `echo foobar`, where the interleaving gives `echo foo to bar`. */
  lemma DroppedFragmentsExample()
    ensures Assemble(["echo ", " to ", ""], [Scalar(Text("foo")), Scalar(Text("bar"))]) == "echo foobar"
    ensures AssembleInterleaved(["echo ", " to ", ""], [Scalar(Text("foo")), Scalar(Text("bar"))]) == "echo foo to bar"
  {
    PlainWords();
    ExampleAsWritten("foo", "bar");
    ExampleInterleaved("foo", "bar");
  }

  lemma ExampleAsWritten(a: string, b: string)
    requires Render(Scalar(Text(a))) == a && Render(Scalar(Text(b))) == b
    ensures Assemble(["echo ", " to ", ""], [Scalar(Text(a)), Scalar(Text(b))]) == "echo " + a + b
  {
    var rendered := RenderAll([Scalar(Text(a)), Scalar(Text(b))]);
    assert rendered == [a, b];
    assert Concat([a, b]) == a + b by {
      assert [a, b][1..] == [b];
      assert [b][1..] == [];
      assert Concat([b]) == b + "" == b;
    }
    assert "echo " + (a + b) == "echo " + a + b;
  }

  lemma ExampleInterleaved(a: string, b: string)
    requires Render(Scalar(Text(a))) == a && Render(Scalar(Text(b))) == b
    ensures AssembleInterleaved(["echo ", " to ", ""], [Scalar(Text(a)), Scalar(Text(b))]) == "echo " + a + " to " + b
  {
    var pieces := ["echo ", " to ", ""];
    var args := [Scalar(Text(a)), Scalar(Text(b))];
    InterleavedCons(pieces, args);
    assert pieces[1..] == [" to ", ""] && args[1..] == [Scalar(Text(b))];
    InterleavedCons(pieces[1..], args[1..]);
    assert pieces[1..][1..] == [""] && args[1..][1..] == [];
    assert AssembleInterleaved([""], []) == "";
    Regroup("echo ", a, " to ", b, "");
  }

  /** The two words of the example are plain tokens and pass through quoting. */
  lemma PlainWords()
    ensures Render(Scalar(Text("foo"))) == "foo" && Render(Scalar(Text("bar"))) == "bar"
  {
    assert IsSafeToken("foo") by {
      assert forall i | 0 <= i < 3 :: IsSafeChar("foo"[i]);
    }
    assert IsSafeToken("bar") by {
      assert forall i | 0 <= i < 3 :: IsSafeChar("bar"[i]);
    }
  }

  /** `n` copies of the one-space fragment. */
  function Spaces(n: nat): (r: seq<string>)
    ensures |r| == n
    ensures forall i | 0 <= i < n :: r[i] == " "
  {
    if n == 0 then [] else [" "] + Spaces(n - 1)
  }

  /** With the interleaving, a list in slot `k` of any template is the same
      command text as writing each of its elements as its own slot, with
      single-space fragments between them. */
  lemma ListSlotIsSeparateSlots(pieces: seq<string>, args: seq<Arg>, k: nat, xs: seq<Value>)
    requires |pieces| == |args| + 1 && k < |args| && args[k] == List(xs) && |xs| > 0
    ensures AssembleInterleaved(pieces, args)
         == AssembleInterleaved(pieces[..k + 1] + Spaces(|xs| - 1) + pieces[k + 1..],
                                args[..k] + SeparateSlots(xs) + args[k + 1..])
  {
    var slots := RenderAll(args);
    RenderSplice(args, k, xs);
    WeaveList(pieces, slots, k, QuoteEach(xs));
  }

  /** Rendering the separated template: the rendered slots with the list's
      slot replaced by its quoted elements. */
  lemma RenderSplice(args: seq<Arg>, k: nat, xs: seq<Value>)
    requires k < |args| && args[k] == List(xs)
    ensures RenderAll(args[..k] + SeparateSlots(xs) + args[k + 1..])
         == RenderAll(args)[..k] + QuoteEach(xs) + RenderAll(args)[k + 1..]
    ensures RenderAll(args)[k] == Join(QuoteEach(xs), " ")
  {
    var args' := args[..k] + SeparateSlots(xs) + args[k + 1..];
    var l := RenderAll(args');
    var r := RenderAll(args)[..k] + QuoteEach(xs) + RenderAll(args)[k + 1..];
    SeparateSlotsAt(xs);
    forall i | 0 <= i < |l| ensures l[i] == r[i] {
      if i < k {
        assert args'[i] == args[i];
      } else if i < k + |xs| {
        assert args'[i] == SeparateSlots(xs)[i - k];
      } else {
        assert args'[i] == args[i - |xs| + 1];
      }
    }
  }

  lemma {:induction false} SeparateSlotsAt(xs: seq<Value>)
    ensures forall i | 0 <= i < |xs| :: SeparateSlots(xs)[i] == Scalar(xs[i])
    decreases |xs|
  {
    if xs != [] {
      SeparateSlotsAt(xs[1..]);
    }
  }

  function SeparateSlots(xs: seq<Value>): (r: seq<Arg>)
    ensures |r| == |xs|
    decreases |xs|
  {
    if xs == [] then [] else [Scalar(xs[0])] + SeparateSlots(xs[1..])
  }

  /** A slot holding words joined by single spaces weaves to the same text
      as one slot per word with one-space fragments between them. */
  lemma {:induction false} WeaveList(pieces: seq<string>, slots: seq<string>, k: nat, ws: seq<string>)
    requires |pieces| == |slots| + 1 && k < |slots| && |ws| > 0 && slots[k] == Join(ws, " ")
    ensures Weave(pieces, slots)
         == Weave(pieces[..k + 1] + Spaces(|ws| - 1) + pieces[k + 1..], slots[..k] + ws + slots[k + 1..])
    decreases k
  {
    var pieces' := pieces[..k + 1] + Spaces(|ws| - 1) + pieces[k + 1..];
    var slots' := slots[..k] + ws + slots[k + 1..];
    if k == 0 {
      SpliceHead(pieces, Spaces(|ws| - 1));
      SpliceFront(slots, ws);
      WeaveSpelled(pieces[0], ws, pieces[1..], slots[1..]);
    } else {
      WeaveList(pieces[1..], slots[1..], k - 1, ws);
      SpliceTail(pieces, k + 1, k + 1, Spaces(|ws| - 1));
      SpliceTail(slots, k, k + 1, ws);
    }
  }

  /** Dropping the first element of a spliced sequence. */
  lemma SpliceTail<T>(s: seq<T>, i: nat, j: nat, mid: seq<T>)
    requires 0 < i <= j <= |s|
    ensures (s[..i] + mid + s[j..])[0] == s[0]
    ensures (s[..i] + mid + s[j..])[1..] == s[1..][..i - 1] + mid + s[1..][j - 1..]
  {
    assert s[..i] == [s[0]] + s[1..][..i - 1];
    assert s[j..] == s[1..][j - 1..];
  }

  lemma SpliceHead<T>(s: seq<T>, mid: seq<T>)
    requires |s| > 0
    ensures s[..1] + mid + s[1..] == [s[0]] + mid + s[1..]
  {
  }

  lemma SpliceFront<T>(s: seq<T>, mid: seq<T>)
    requires |s| > 0
    ensures s[..0] + mid + s[1..] == mid + s[1..]
  {
  }

  /** Words as separate slots, followed by the rest of a template, spell
      the joined words followed by the rest. */
  lemma {:induction false} WeaveSpelled(p: string, ws: seq<string>, rest: seq<string>, more: seq<string>)
    requires |ws| > 0 && |rest| == |more| + 1
    ensures Weave([p] + Spaces(|ws| - 1) + rest, ws + more) == p + Join(ws, " ") + Weave(rest, more)
    decreases |ws|
  {
    var pieces := [p] + Spaces(|ws| - 1) + rest;
    var slots := ws + more;
    PiecesTail(p, |ws| - 1, rest);
    assert slots[0] == ws[0] && slots[1..] == ws[1..] + more;
    if |ws| == 1 {
      assert Join(ws, " ") == ws[0];
    } else {
      WeaveSpelled(" ", ws[1..], rest, more);
      JoinCons(ws[0], ws[1..]);
      assert ws == [ws[0]] + ws[1..];
      Regroup(p, ws[0], " ", Join(ws[1..], " "), Weave(rest, more));
    }
  }

  lemma PiecesTail(p: string, n: nat, rest: seq<string>)
    ensures ([p] + Spaces(n) + rest)[0] == p
    ensures n == 0 ==> ([p] + Spaces(n) + rest)[1..] == rest
    ensures n > 0 ==> ([p] + Spaces(n) + rest)[1..] == [" "] + Spaces(n - 1) + rest
  {
    if n > 0 {
      assert Spaces(n) == [" "] + Spaces(n - 1);
    }
  }

  lemma Regroup(a: string, b: string, c: string, d: string, e: string)
    ensures a + b + (c + d + e) == a + (b + c + d) + e
  {
  }

  lemma InterleavedCons(pieces: seq<string>, args: seq<Arg>)
    requires |pieces| == |args| + 1 && |args| > 0
    ensures AssembleInterleaved(pieces, args)
         == pieces[0] + Render(args[0]) + AssembleInterleaved(pieces[1..], args[1..])
  {
    assert RenderAll(args)[1..] == RenderAll(args[1..]);
  }

  lemma JoinCons(w: string, ws: seq<string>)
    requires |ws| > 0
    ensures Join([w] + ws, " ") == w + " " + Join(ws, " ")
  {
    assert ([w] + ws)[1..] == ws;
  }

  /** The process-wide settings `$` reads when it is called. */
  datatype Config = Config(verbose: bool, shell: string, prefix: string)

  const DefaultShell: string := "bash"
  const DefaultPrefix: string := "set -euo pipefail;"

  /** The settings from the command-line flags (index.ts:241-249): `--quiet`
      turns echo off, `--shell` and `--prefix` replace the defaults. The
      prefix default does not depend on the shell chosen. */
  function ConfigFromFlags(quiet: bool, shell: Option<string>, prefix: Option<string>): (c: Config)
    ensures c.verbose == !quiet
    ensures shell.None? ==> c.shell == DefaultShell
    ensures prefix.None? ==> c.prefix == DefaultPrefix
    ensures shell.Some? ==> c.shell == shell.value
    ensures prefix.Some? ==> c.prefix == prefix.value
  {
    Config(!quiet, shell.GetOr(DefaultShell), prefix.GetOr(DefaultPrefix))
  }
}
