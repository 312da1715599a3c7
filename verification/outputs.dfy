/** The completed-process artefact (index.ts:114-161), the exit-code
    explanation table (index.ts:273-307) and the failure message the close
    handler builds (index.ts:194-202). */
module Outputs {
  import opened Base

  /** The exit-code explanation table (the object literal of `exitCodeInfo`). */
  function ExitCodeTable(code: int): Option<string> {
    match code
    case 2 => Some("Misuse of shell builtins")
    case 126 => Some("Invoked command cannot execute")
    case 127 => Some("Command not found")
    case 128 => Some("Invalid exit argument")
    case 129 => Some("Hangup")
    case 130 => Some("Interrupt")
    case 131 => Some("Quit and dump core")
    case 132 => Some("Illegal instruction")
    case 133 => Some("Trace/breakpoint trap")
    case 134 => Some("Process aborted")
    case 135 => Some("Bus error: \"access to undefined portion of memory object\"")
    case 136 => Some("Floating point exception: \"erroneous arithmetic operation\"")
    case 137 => Some("Kill (terminate immediately)")
    case 138 => Some("User-defined 1")
    case 139 => Some("Segmentation violation")
    case 140 => Some("User-defined 2")
    case 141 => Some("Write to pipe with no one reading")
    case 142 => Some("Signal raised by alarm")
    case 143 => Some("Termination (request to terminate)")
    case 145 => Some("Child process terminated, stopped (or continued*)")
    case 146 => Some("Continue if stopped")
    case 147 => Some("Stop executing temporarily")
    case 148 => Some("Terminal stop signal")
    case 149 => Some("Background process attempting to read from tty (\"in\")")
    case 150 => Some("Background process attempting to write to tty (\"out\")")
    case 151 => Some("Urgent data available on socket")
    case 152 => Some("CPU time limit exceeded")
    case 153 => Some("File size limit exceeded")
    case 154 => Some("Signal raised by timer counting virtual time: \"virtual timer expired\"")
    case 155 => Some("Profiling timer expired")
    case 157 => Some("Pollable event")
    case 159 => Some("Bad syscall")
    case _ => None
  }

  /** The statuses that have an explanation: 2, 126 to 143, 145 to 155, 157
      and 159 (144, 156 and 158 are missing from the table). */
  predicate HasExplanation(code: int) {
    || code == 2
    || 126 <= code <= 143
    || 145 <= code <= 155
    || code == 157
    || code == 159
  }

  predicate NoNewline(s: string) {
    '\n' !in s
  }

  /** `exitCodeInfo`: the explanation of a status, if the table has one. */
  function ExitCodeInfo(code: int): (r: Option<string>)
    ensures r.Some? <==> HasExplanation(code)
  {
    TableDomain(code);
    ExitCodeTable(code)
  }

  lemma TableDomain(code: int)
    ensures ExitCodeTable(code).Some? <==> HasExplanation(code)
  {
    if !HasExplanation(code) {
      TableOutside(code);
    } else if code <= 140 {
      TableLow(code);
    } else {
      TableHigh(code);
    }
  }

  lemma TableOutside(code: int)
    requires !HasExplanation(code)
    ensures ExitCodeTable(code).None?
  {
    if code < 126 {
    } else if code > 159 {
    } else if code == 144 {
    } else if code == 156 {
    } else {
      assert code == 158;
    }
  }

  lemma TableLow(code: int)
    requires HasExplanation(code) && code <= 140
    ensures ExitCodeTable(code).Some?
  {
    if code == 2 {
    } else if code == 126 {
    } else if code == 127 {
    } else if code == 128 {
    } else if code == 129 {
    } else if code == 130 {
    } else if code == 131 {
    } else if code == 132 {
    } else if code == 133 {
    } else if code == 134 {
    } else if code == 135 {
    } else if code == 136 {
    } else if code == 137 {
    } else if code == 138 {
    } else if code == 139 {
    } else if code == 140 {
    }
  }

  lemma TableHigh(code: int)
    requires HasExplanation(code) && code > 140
    ensures ExitCodeTable(code).Some?
  {
    if code == 141 {
    } else if code == 142 {
    } else if code == 143 {
    } else if code == 145 {
    } else if code == 146 {
    } else if code == 147 {
    } else if code == 148 {
    } else if code == 149 {
    } else if code == 150 {
    } else if code == 151 {
    } else if code == 152 {
    } else if code == 153 {
    } else if code == 154 {
    } else if code == 155 {
    } else if code == 157 {
    } else if code == 159 {
    }
  }

  /** The explanation for a status the close event may carry: `null` has none. */
  function InfoFor(code: Option<int>): Option<string> {
    match code
    case Some(c) => ExitCodeInfo(c)
    case None => None
  }

  /** `${code}` for a status that is a number or `null`. */
  function CodeText(code: Option<int>): (s: string)
    ensures NoNewline(s)
  {
    match code
    case Some(c) => IntToDecimal(c)
    case None => "null"
  }

  /** The parenthesised explanation that follows the status, if any. */
  function InfoSuffix(info: Option<string>): string {
    match info
    case Some(i) => " (" + i + ")"
    case None => ""
  }

  const ExitCodeLabel: string := "    exit code: "
  const SignalLabel: string := "    signal: "
  const AtLabel: string := "    at "

  /** The exit-code line (without its leading newline). */
  function ExitLine(code: Option<int>, info: Option<string>): string {
    ExitCodeLabel + CodeText(code) + InfoSuffix(info)
  }

  /** The text after the last newline of `s` (all of `s` if it has none). */
  function LastLine(s: string): string
    decreases |s|
  {
    if s == [] then []
    else if s[|s| - 1] == '\n' then []
    else LastLine(s[..|s| - 1]) + [s[|s| - 1]]
  }

  /** What the message starts with: the captured stderr, or a newline when
      nothing was captured (`stderr || '\n'`). */
  function MessageHead(stderr: string): string {
    if stderr == "" then "\n" else stderr
  }

  /** The message of a finished process (index.ts:195-202): the captured
      stderr (or a lone newline when it is empty), the provenance line, the
      exit-code line with its explanation, and a signal line when there was a
      signal. `from` stands for the stack-trace provenance text. */
  function FailureMessage(stderr: string, from: string, code: Option<int>, signal: Option<string>): (m: string)
    ensures StartsWith(m, MessageHead(stderr)) && StartsWith(m, MessageHead(stderr) + AtLabel + from)
    ensures signal.None? ==> EndsWith(m, "\n" + ExitLine(code, InfoFor(code)))
    ensures signal.None? && InfoFor(code).None? ==> LastLine(m) == ExitCodeLabel + CodeText(code)
    ensures signal.None? && InfoFor(code).Some? ==> EndsWith(m, " (" + InfoFor(code).value + ")")
    ensures signal.Some? ==> EndsWith(m, "\n" + SignalLabel + signal.value)
    ensures signal.Some? && NoNewline(signal.value) ==> LastLine(m) == SignalLabel + signal.value
    ensures var after := m[|MessageHead(stderr) + AtLabel + from|..];
      && (signal.None? ==> after == "\n" + ExitLine(code, InfoFor(code)))
      && (signal.Some? ==> after == "\n" + ExitLine(code, InfoFor(code)) + ("\n" + SignalLabel + signal.value))
  {
    var info := InfoFor(code);
    CodeLineShape(stderr, from, code, info);
    AfterProvenance(MessageHead(stderr) + AtLabel + from, "\n" + ExitLine(code, info), signal);
    if signal.Some? then
      SignalLineShape(CodeLine(stderr, from, code, info), signal.value, MessageHead(stderr));
      SignalLineShape(CodeLine(stderr, from, code, info), signal.value, MessageHead(stderr) + AtLabel + from);
      ComposeMessage(stderr, from, code, info, signal)
    else
      ComposeMessage(stderr, from, code, info, signal)
  }

  /** What follows the provenance: the exit-code line, then the signal line
      if there is one. */
  lemma AfterProvenance(head: string, exit: string, signal: Option<string>)
    ensures var m := head + exit;
      signal.None? ==> m[|head|..] == exit
    ensures signal.Some? ==>
      var m := head + exit + ("\n" + (SignalLabel + signal.value));
      m[|head|..] == exit + ("\n" + SignalLabel + signal.value)
  {
    if signal.Some? {
      var tail := "\n" + (SignalLabel + signal.value);
      assert tail == "\n" + SignalLabel + signal.value;
      assert head + exit + tail == head + (exit + tail);
    }
  }

  /** The message text for a given explanation `info`. */
  function ComposeMessage(stderr: string, from: string, code: Option<int>, info: Option<string>, signal: Option<string>): string {
    var withCode := CodeLine(stderr, from, code, info);
    match signal
    case None => withCode
    case Some(sig) => withCode + ("\n" + (SignalLabel + sig))
  }

  function CodeLine(stderr: string, from: string, code: Option<int>, info: Option<string>): string {
    MessageHead(stderr) + AtLabel + from + ("\n" + ExitLine(code, info))
  }

  lemma CodeLineShape(stderr: string, from: string, code: Option<int>, info: Option<string>)
    ensures var w := CodeLine(stderr, from, code, info);
      && StartsWith(w, MessageHead(stderr) + AtLabel + from)
      && StartsWith(w, MessageHead(stderr))
      && EndsWith(w, "\n" + ExitLine(code, info))
      && (info.None? ==> LastLine(w) == ExitCodeLabel + CodeText(code))
      && (info.Some? ==> EndsWith(w, " (" + info.value + ")"))
  {
    var head := MessageHead(stderr) + AtLabel + from;
    HeadShape(MessageHead(stderr), AtLabel + from, "\n" + ExitLine(code, info));
    assert head == MessageHead(stderr) + (AtLabel + from);
    TailShape(head, code, info);
  }

  /** The head of a message and everything after it. */
  lemma HeadShape(h: string, at: string, rest: string)
    ensures StartsWith(h + at + rest, h + at) && StartsWith(h + at + rest, h)
  {
    PrefixOfConcat(h + at, rest);
    PrefixOfConcat(h, at);
    PrefixTrans(h + at + rest, h + at, h);
  }

  /** The exit-code line closes the message. */
  lemma TailShape(head: string, code: Option<int>, info: Option<string>)
    ensures var w := head + ("\n" + ExitLine(code, info));
      && EndsWith(w, "\n" + ExitLine(code, info))
      && (info.None? ==> LastLine(w) == ExitCodeLabel + CodeText(code))
      && (info.Some? ==> EndsWith(w, " (" + info.value + ")"))
  {
    var w := head + ("\n" + ExitLine(code, info));
    SuffixOfConcat(head, "\n" + ExitLine(code, info));
    if info.None? {
      assert ExitLine(code, info) == ExitCodeLabel + CodeText(code);
      LastLineAfterNewline(head, ExitLine(code, info));
    } else {
      SuffixOfConcat(ExitCodeLabel + CodeText(code), InfoSuffix(info));
      SuffixOfConcat("\n", ExitLine(code, info));
      SuffixTrans(w, "\n" + ExitLine(code, info), InfoSuffix(info));
    }
  }

  lemma SignalLineShape(w: string, sig: string, p: string)
    requires StartsWith(w, p)
    ensures var m := w + ("\n" + (SignalLabel + sig));
      && StartsWith(m, p)
      && EndsWith(m, "\n" + SignalLabel + sig)
      && (NoNewline(sig) ==> LastLine(m) == SignalLabel + sig)
  {
    var m := w + ("\n" + (SignalLabel + sig));
    PrefixOfConcat(w, "\n" + (SignalLabel + sig));
    PrefixTrans(m, w, p);
    SuffixOfConcat(w, "\n" + (SignalLabel + sig));
    assert "\n" + (SignalLabel + sig) == "\n" + SignalLabel + sig;
    if NoNewline(sig) {
      LastLineAfterNewline(w, SignalLabel + sig);
    }
  }

  lemma {:induction false} LastLineAfterNewline(a: string, b: string)
    requires NoNewline(b)
    ensures LastLine(a + ("\n" + b)) == b
    decreases |b|
  {
    var s := a + ("\n" + b);
    if b == [] {
      assert s[|s| - 1] == '\n';
    } else {
      var b' := b[..|b| - 1];
      assert s[..|s| - 1] == a + ("\n" + b');
      assert b[|b| - 1] in b;
      LastLineAfterNewline(a, b');
      assert b' + [b[|b| - 1]] == b;
    }
  }

  lemma PrefixOfConcat(a: string, b: string)
    ensures StartsWith(a + b, a)
  {
    assert (a + b)[..|a|] == a;
  }

  lemma SuffixOfConcat(a: string, b: string)
    ensures EndsWith(a + b, b)
  {
    assert (a + b)[|a + b| - |b|..] == b;
  }

  lemma PrefixTrans(s: string, p: string, q: string)
    requires StartsWith(s, p) && StartsWith(p, q)
    ensures StartsWith(s, q)
  {
    assert s[..|q|] == p[..|q|];
  }

  lemma SuffixTrans(s: string, p: string, q: string)
    requires EndsWith(s, p) && EndsWith(p, q)
    ensures EndsWith(s, q)
  {
    assert s[|s| - |q|..] == p[|p| - |q|..];
  }

  /** The signal line is appended exactly when there is a signal; the rest of
      the message does not depend on it. */
  lemma SignalLineAppended(stderr: string, from: string, code: Option<int>, sig: string)
    ensures FailureMessage(stderr, from, code, Some(sig)) == FailureMessage(stderr, from, code, None) + "\n" + SignalLabel + sig
  {
  }

  /** The result a finished process produces. The constructor of the source
      takes a signal but never stores it, so `Signal()` is always absent. */
  datatype ProcessOutput = ProcessOutput(code: Option<int>, out: string, err: string, combined: string, message: string)
  {
    function ExitCode(): Option<int> { code }

    function Stdout(): string { out }

    function Stderr(): string { err }

    /** `toString` gives the interleaved output of both streams. */
    function ToString(): string { combined }

    function Signal(): Option<string> { None }
  }

  /** `new ProcessOutput({code, signal, stdout, stderr, combined, message})`. */
  function MakeOutput(code: Option<int>, signal: Option<string>, stdout: string, stderr: string,
                      combined: string, message: string): (o: ProcessOutput)
    ensures o.ExitCode() == code && o.Stdout() == stdout && o.Stderr() == stderr
    ensures o.ToString() == combined && o.message == message
    ensures o.Signal().None?
  {
    ProcessOutput(code, stdout, stderr, combined, message)
  }
}
