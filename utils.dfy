/**
 * The helpers every module launcher relies on: quoting a command for
 * `bash -c` the way `shlex.quote` does, the wrapper command line that
 * logs a module's output and leaves a done file behind, the search for a
 * terminal emulator to run it in, the polling wait for the done file and
 * the check for missing tools.
 *
 * Spawning a process, the clock and `shutil.which` are outside the model:
 * they arrive as oracle parameters.
 */
module Utils {
  import opened Common
  import opened Text

  // ---------------------------------------------------------------------
  // shlex.quote and the POSIX shell words it is read back as
  // ---------------------------------------------------------------------

  /** The characters `shlex.quote` leaves unquoted: ASCII `\w` and `@%+=:,./-`. */
  predicate IsSafe(c: char)
  {
    ('a' <= c <= 'z') || ('A' <= c <= 'Z') || ('0' <= c <= '9') || c in "_@%+=:,./-"
  }

  predicate AllSafe(s: string)
    decreases |s|
  {
    s == [] || (IsSafe(s[0]) && AllSafe(s[1..]))
  }

  /** What a single quote becomes inside a single-quoted word: close, `"'"`, reopen. */
  const QuoteEscape: string := "'\"'\"'"

  /**
   * `shlex.quote(s)`: `''` for the empty string, `s` itself when every
   * character is safe, otherwise `s` in single quotes with each `'`
   * rewritten as `'"'"'`.
   */
  function ShellQuote(s: string): string
  {
    if s == [] then "''"
    else if AllSafe(s) then s
    else Quoted(s)
  }

  /** The characters that end an unquoted word in the POSIX shell grammar. */
  predicate IsBreak(c: char)
  {
    c in " \t\n;&|<>()"
  }

  /** The rest of the input after a word ends: nothing, or a blank or operator. */
  predicate Stops(rest: string)
  {
    rest == [] || IsBreak(rest[0])
  }

  /** Double-quoted text that the shell takes literally. */
  predicate DqPlain(body: string)
  {
    '$' !in body && '`' !in body && '\\' !in body
  }

  function PrefixWord(a: string, o: Option<(string, string)>): Option<(string, string)>
  {
    if o.None? then None else Some((a + o.value.0, o.value.1))
  }

  /**
   * Reads one shell word from the front of `s` (sections 2.2.2 and 2.2.3
   * of the POSIX Shell Command Language): unquoted safe characters stand
   * for themselves, `'...'` and `"..."` contribute their contents, and the
   * word ends before a blank or operator character. Returns the word and
   * the unread rest, or None for input outside this small grammar.
   */
  function ReadWord(s: string): (r: Option<(string, string)>)
    ensures r.Some? ==> |r.value.1| <= |s|
    decreases |s|
  {
    if s == [] || IsBreak(s[0]) then Some(([], s))
    else if s[0] == '\'' then
      var t := s[1..];
      if '\'' in t then
        var j := IndexOf(t, '\'');
        PrefixWord(t[..j], ReadWord(t[j + 1..]))
      else None
    else if s[0] == '"' then
      var t := s[1..];
      if '"' in t then
        var j := IndexOf(t, '"');
        if DqPlain(t[..j]) then PrefixWord(t[..j], ReadWord(t[j + 1..])) else None
      else None
    else if IsSafe(s[0]) then PrefixWord([s[0]], ReadWord(s[1..]))
    else None
  }

  /** Splits `s` into the words it holds, the words separated by single spaces. */
  function Words(s: string): Option<seq<string>>
    decreases |s|
  {
    match ReadWord(s)
    case None => None
    case Some((w, rest)) =>
      if rest == [] then Some([w])
      else if rest[0] == ' ' then
        var more := Words(rest[1..]);
        if more.None? then None else Some([w] + more.value)
      else None
  }

  /** A safe character is neither a blank, an operator nor a quote. */
  lemma SafeNotSpecial(c: char)
    requires IsSafe(c)
    ensures !IsBreak(c) && c != '\'' && c != '"'
  {
  }

  /** An unquoted safe character starts the word that follows it. */
  lemma ReadSafeChar(s: string)
    requires s != [] && IsSafe(s[0])
    ensures ReadWord(s) == PrefixWord([s[0]], ReadWord(s[1..]))
  {
    SafeNotSpecial(s[0]);
  }

  lemma {:induction false} ReadSafe(a: string, rest: string)
    requires AllSafe(a) && Stops(rest)
    ensures ReadWord(a + rest) == Some((a, rest))
    decreases |a|
  {
    if a != [] {
      var s := a + rest;
      assert s[0] == a[0] && s[1..] == a[1..] + rest;
      ReadSafe(a[1..], rest);
      ReadSafeChar(s);
      assert [a[0]] + a[1..] == a;
    } else {
      assert a + rest == rest;
    }
  }

  lemma ReadSingleQuoted(a: string, rest: string)
    requires '\'' !in a
    ensures ReadWord("'" + a + "'" + rest) == PrefixWord(a, ReadWord(rest))
  {
    var s := "'" + a + "'" + rest;
    var t := s[1..];
    assert t == a + "'" + rest;
    assert t[|a|] == '\'';
    var j := IndexOf(t, '\'');
    assert t[..j] == a;
    assert t[j + 1..] == rest;
  }

  lemma ReadDoubleQuotedQuote(rest: string)
    ensures ReadWord("\"'\"" + rest) == PrefixWord("'", ReadWord(rest))
  {
    var s := "\"'\"" + rest;
    var t := s[1..];
    assert t == "'\"" + rest;
    assert t[1] == '"' && t[0] != '"';
    var j := IndexOf(t, '"');
    assert j == 1;
    assert t[..j] == "'";
    assert t[j + 1..] == rest;
  }

  lemma PrefixAroundQuote(a: string, b: string, o: Option<(string, string)>)
    ensures PrefixWord(a, PrefixWord("'", PrefixWord(b, o))) == PrefixWord(a + "'" + b, o)
  {
    if o.Some? {
      assert a + ("'" + (b + o.value.0)) == (a + "'" + b) + o.value.0;
    }
  }

  lemma {:induction false} ReplaceQuoteFree(a: string)
    requires '\'' !in a
    ensures Replace(a, "'", QuoteEscape) == a
    decreases |a|
  {
    if a != [] {
      assert a[..1] == [a[0]] && a[0] != '\'';
      assert a[1..] == a[1..];
      ReplaceQuoteFree(a[1..]);
      assert [a[0]] + a[1..] == a;
    }
  }

  /** Replacing quotes in `a + "'" + b`, `a` free of quotes. */
  lemma {:induction false} ReplaceQuoteSplit(a: string, b: string)
    requires '\'' !in a
    ensures Replace(a + "'" + b, "'", QuoteEscape) == a + QuoteEscape + Replace(b, "'", QuoteEscape)
    decreases |a|
  {
    var s := a + "'" + b;
    if a == [] {
      assert s[..1] == "'";
      assert s[1..] == b;
    } else {
      assert s[..1] == [a[0]] && a[0] != '\'';
      assert s[1..] == a[1..] + "'" + b;
      ReplaceQuoteSplit(a[1..], b);
      assert [a[0]] + (a[1..] + QuoteEscape + Replace(b, "'", QuoteEscape))
          == a + QuoteEscape + Replace(b, "'", QuoteEscape);
    }
  }

  /** `s` in single quotes, each quote inside rewritten as `QuoteEscape`. */
  function Quoted(s: string): string
  {
    "'" + Replace(s, "'", QuoteEscape) + "'"
  }

  /** Quoting `a + "'" + b` closes the quote after `a`, adds `"'"`, then quotes `b`. */
  lemma QuotedSplit(a: string, b: string, rest: string)
    requires '\'' !in a
    ensures Quoted(a + "'" + b) + rest == "'" + a + "'" + ("\"'\"" + (Quoted(b) + rest))
  {
    ReplaceQuoteSplit(a, b);
    assert QuoteEscape == "'" + "\"'\"" + "'";
    Regroup("'", a, "'", "\"'\"", "'", Replace(b, "'", QuoteEscape), "'", rest);
  }

  lemma Regroup<T>(p: seq<T>, a: seq<T>, e1: seq<T>, e2: seq<T>, e3: seq<T>, r: seq<T>, q: seq<T>, rest: seq<T>)
    ensures (p + (a + (e1 + e2 + e3) + r) + q) + rest == p + a + e1 + (e2 + ((e3 + r + q) + rest))
  {
  }

  /** One quote of `s` at a time: what follows it reads back by induction. */
  lemma ReadQuotedStep(a: string, b: string, rest: string)
    requires '\'' !in a
    requires ReadWord(Quoted(b) + rest) == PrefixWord(b, ReadWord(rest))
    ensures ReadWord(Quoted(a + "'" + b) + rest) == PrefixWord(a + "'" + b, ReadWord(rest))
  {
    var x := ReadWord(rest);
    var tail := Quoted(b) + rest;
    ReadDoubleQuotedQuote(tail);
    QuotedSplit(a, b, rest);
    ReadSingleQuoted(a, "\"'\"" + tail);
    assert ReadWord(Quoted(a + "'" + b) + rest) == PrefixWord(a, PrefixWord("'", PrefixWord(b, x)));
    PrefixAroundQuote(a, b, x);
  }

  /** The single-quoted form of `s` reads back as `s`, whatever follows it. */
  lemma {:induction false} ReadQuoted(s: string, rest: string)
    ensures ReadWord(Quoted(s) + rest) == PrefixWord(s, ReadWord(rest))
    decreases |s|
  {
    if '\'' !in s {
      ReplaceQuoteFree(s);
      ReadSingleQuoted(s, rest);
    } else {
      var j := IndexOf(s, '\'');
      assert s == s[..j] + "'" + s[j + 1..];
      ReadQuoted(s[j + 1..], rest);
      ReadQuotedStep(s[..j], s[j + 1..], rest);
    }
  }

  /**
   * The shell reads `shlex.quote(s)` back as exactly one word, `s`, as long
   * as a blank, an operator or the end of the line follows it.
   */
  lemma ShellQuoteReadsBack(s: string, rest: string)
    requires Stops(rest)
    ensures ReadWord(ShellQuote(s) + rest) == Some((s, rest))
  {
    assert ReadWord(rest) == Some(([], rest));
    if s == [] {
      ReadSingleQuoted([], rest);
      assert ShellQuote(s) + rest == "'" + [] + "'" + rest;
      assert PrefixWord([], ReadWord(rest)) == Some(([] + [], rest));
      assert [] + [] == s;
    } else if AllSafe(s) {
      ReadSafe(s, rest);
    } else {
      ReadQuoted(s, rest);
      assert s + [] == s;
    }
  }

  /** A word followed by a space and more words. */
  lemma WordsCons(s: string, w: string, more: string)
    requires ReadWord(s) == Some((w, " " + more))
    ensures Words(s) == if Words(more).None? then None else Some([w] + Words(more).value)
  {
    assert (" " + more)[1..] == more;
  }

  /** A word that ends the input. */
  lemma WordsLast(s: string, w: string)
    requires ReadWord(s) == Some((w, []))
    ensures Words(s) == Some([w])
  {
  }

  function QuoteAll(args: seq<string>): (r: seq<string>)
    ensures |r| == |args|
  {
    if args == [] then [] else [ShellQuote(args[0])] + QuoteAll(args[1..])
  }

  /** `' '.join(shlex.quote(a) for a in args)` splits back into `args`. */
  lemma {:induction false} QuotedCommandWords(args: seq<string>)
    requires args != []
    ensures Words(Join(QuoteAll(args), " ")) == Some(args)
    decreases |args|
  {
    if |args| == 1 {
      QuotedOneWord(args[0]);
      assert [args[0]] == args;
    } else {
      QuotedCommandWords(args[1..]);
      QuotedWordsCons(args[0], args[1..]);
      assert [args[0]] + args[1..] == args;
    }
  }

  lemma QuotedOneWord(a: string)
    ensures Words(Join(QuoteAll([a]), " ")) == Some([a])
  {
    var q := QuoteAll([a]);
    ShellQuoteReadsBack(a, []);
    assert ShellQuote(a) + [] == ShellQuote(a);
    assert Join(q, " ") == ShellQuote(a);
    WordsLast(Join(q, " "), a);
  }

  lemma QuotedWordsCons(a: string, rest: seq<string>)
    requires rest != [] && Words(Join(QuoteAll(rest), " ")) == Some(rest)
    ensures Words(Join(QuoteAll([a] + rest), " ")) == Some([a] + rest)
  {
    var args := [a] + rest;
    var q := QuoteAll(args);
    assert args[0] == a && args[1..] == rest;
    assert q[0] == ShellQuote(a) && q[1..] == QuoteAll(rest);
    var more := Join(q[1..], " ");
    JoinCons(q, " ");
    ShellQuoteReadsBack(a, " " + more);
    WordsCons(Join(q, " "), a, more);
  }

  lemma JoinCons(parts: seq<string>, sep: string)
    requires |parts| > 1
    ensures Join(parts, sep) == parts[0] + (sep + Join(parts[1..], sep))
  {
    var x, y := parts[0], Join(parts[1..], sep);
    assert (x + sep) + y == x + (sep + y);
  }

  // ---------------------------------------------------------------------
  // The wrapper command and the terminal search
  // ---------------------------------------------------------------------

  const TeeInto: string := " 2>&1 | tee -a "

  function DoneLine(donefile: string): string
  {
    "; echo 'Module completed at $(date)' > " + ShellQuote(donefile)
  }

  /**
   * The command line handed to `bash -c`: the quoted module command, its
   * combined output appended to the log through `tee -a`, then a line
   * written to the done file.
   */
  function Wrapper(moduleCmd: seq<string>, logfile: string, donefile: string): string
  {
    Join(QuoteAll(moduleCmd), " ") + TeeInto + ShellQuote(logfile) + DoneLine(donefile)
  }

  /**
   * Whatever characters the arguments hold, the wrapper begins with the
   * module command, which the shell splits into exactly its arguments,
   * followed by the redirection into `tee -a`.
   */
  lemma WrapperCommandWords(moduleCmd: seq<string>, logfile: string, donefile: string)
    requires moduleCmd != []
    ensures var cmd := Join(QuoteAll(moduleCmd), " ");
            StartsWith(Wrapper(moduleCmd, logfile, donefile), cmd + TeeInto)
            && Words(cmd) == Some(moduleCmd)
  {
    QuotedCommandWords(moduleCmd);
    WrapperSplit(moduleCmd, logfile, donefile);
    StartsWithConcat(Join(QuoteAll(moduleCmd), " ") + TeeInto, ShellQuote(logfile) + DoneLine(donefile));
  }

  /** Right after `tee -a` the shell reads the log path as one word. */
  lemma WrapperLogWord(moduleCmd: seq<string>, logfile: string, donefile: string)
    ensures var w := Wrapper(moduleCmd, logfile, donefile);
            var n := |Join(QuoteAll(moduleCmd), " ") + TeeInto|;
            n <= |w| && ReadWord(w[n..]) == Some((logfile, DoneLine(donefile)))
  {
    var head := Join(QuoteAll(moduleCmd), " ") + TeeInto;
    var q, d := ShellQuote(logfile), DoneLine(donefile);
    LogWordReadsBack(logfile, d);
    DropPrefix(head, q + d);
    WrapperSplit(moduleCmd, logfile, donefile);
  }

  lemma LogWordReadsBack(logfile: string, d: string)
    requires d != [] && d[0] == ';'
    ensures ReadWord(ShellQuote(logfile) + d) == Some((logfile, d))
  {
    ShellQuoteReadsBack(logfile, d);
  }

  lemma WrapperSplit(moduleCmd: seq<string>, logfile: string, donefile: string)
    ensures Wrapper(moduleCmd, logfile, donefile)
         == (Join(QuoteAll(moduleCmd), " ") + TeeInto) + (ShellQuote(logfile) + DoneLine(donefile))
  {
  }

  lemma DropPrefix(h: string, t: string)
    ensures |h| <= |h + t| && (h + t)[|h|..] == t
  {
  }


  /** The wrapper ends by redirecting into the done path, read as one word. */
  lemma WrapperDoneWord(moduleCmd: seq<string>, logfile: string, donefile: string)
    ensures EndsWith(Wrapper(moduleCmd, logfile, donefile), "> " + ShellQuote(donefile))
    ensures ReadWord(ShellQuote(donefile)) == Some((donefile, []))
  {
    var w := Wrapper(moduleCmd, logfile, donefile);
    var tail := "> " + ShellQuote(donefile);
    var front := Join(QuoteAll(moduleCmd), " ") + TeeInto + ShellQuote(logfile) + "; echo 'Module completed at $(date)' ";
    assert w == front + tail;
    assert w[|w| - |tail|..] == tail;
    ShellQuoteReadsBack(donefile, []);
    assert ShellQuote(donefile) + [] == ShellQuote(donefile);
  }

  const DefaultTitle: string := "T-SLYTHERINS"

  /** `title or "T-SLYTHERINS"`: a missing or empty title falls back. */
  function WindowTitle(title: Option<string>): (r: string)
    ensures r != []
    ensures title.Some? && title.value != [] ==> r == title.value
  {
    if title.None? || title.value == [] then DefaultTitle else title.value
  }

  /** The terminal emulators tried, in order, each running `bash -c wrapper`. */
  function Candidates(title: Option<string>, wrapper: string): seq<seq<string>>
  {
    var t := WindowTitle(title);
    [ ["xfce4-terminal", "--hold", "-T", t, "-e", "bash", "-c", wrapper],
      ["xterm", "-hold", "-title", t, "-e", "bash", "-c", wrapper],
      ["gnome-terminal", "--", "bash", "-c", wrapper],
      ["konsole", "-e", "bash", "-c", wrapper] ]
  }

  lemma CandidatesRunWrapper(title: Option<string>, wrapper: string)
    ensures var cs := Candidates(title, wrapper);
            |cs| == 4
            && (forall i :: 0 <= i < |cs| ==> |cs[i]| >= 4 && cs[i][|cs[i]| - 3..] == ["bash", "-c", wrapper])
            && cs[0][3] == WindowTitle(title) && cs[1][3] == WindowTitle(title)
  {
  }

  /** What `subprocess.Popen(argv)` does: starts a process, or raises. */
  datatype Spawn = Spawned(pid: nat) | NotFound | SpawnError

  /** What the launcher hands back: a process, None, or an escaping exception. */
  datatype Launch = Started(argv: seq<string>, pid: nat) | NoProcess | Raises

  /**
   * The first candidate that starts wins; a missing binary
   * (`FileNotFoundError`) moves on to the next, any other error escapes
   * since only `FileNotFoundError` is caught.
   */
  function FirstTerminal(cands: seq<seq<string>>, spawn: seq<string> -> Spawn): Launch
    decreases |cands|
  {
    if cands == [] then NoProcess
    else match spawn(cands[0])
      case Spawned(pid) => Started(cands[0], pid)
      case NotFound => FirstTerminal(cands[1..], spawn)
      case SpawnError => Raises
  }

  /**
   * The fallback without a terminal. `module_cmd[0]` is read for the
   * warning before the `try`, so an empty command raises `IndexError`;
   * a log that cannot be opened and a failed spawn both give None.
   */
  function Background(moduleCmd: seq<string>, logOpens: bool, spawn: seq<string> -> Spawn): Launch
  {
    if moduleCmd == [] then Raises
    else if !logOpens then NoProcess
    else match spawn(moduleCmd)
      case Spawned(pid) => Started(moduleCmd, pid)
      case _ => NoProcess
  }

  /** Every candidate before the `k`-th reports a missing binary. */
  ghost predicate MissingBefore(cands: seq<seq<string>>, spawn: seq<string> -> Spawn, k: int)
  {
    k <= |cands| && forall j :: 0 <= j < k ==> spawn(cands[j]) == NotFound
  }

  ghost predicate AllMissing(cands: seq<seq<string>>, spawn: seq<string> -> Spawn)
  {
    MissingBefore(cands, spawn, |cands|)
  }

  /** The `k`-th candidate is the first one that does not report a missing binary. */
  ghost predicate FirstAnswer(cands: seq<seq<string>>, spawn: seq<string> -> Spawn, k: int)
  {
    0 <= k < |cands| && spawn(cands[k]) != NotFound && MissingBefore(cands, spawn, k)
  }

  /** Dropping the first candidate, which was missing, shifts the positions by one. */
  lemma MissingBeforeTail(cands: seq<seq<string>>, spawn: seq<string> -> Spawn, k: int)
    requires cands != [] && 0 < k
    ensures MissingBefore(cands, spawn, k)
        <==> spawn(cands[0]) == NotFound && MissingBefore(cands[1..], spawn, k - 1)
  {
    if spawn(cands[0]) == NotFound && MissingBefore(cands[1..], spawn, k - 1) {
      forall j | 0 <= j < k ensures spawn(cands[j]) == NotFound {
        if j > 0 { assert cands[j] == cands[1..][j - 1]; }
      }
    }
    if MissingBefore(cands, spawn, k) {
      forall j | 0 <= j < k - 1 ensures spawn(cands[1..][j]) == NotFound {
        assert cands[1..][j] == cands[j + 1];
      }
    }
  }

  lemma {:induction false} FirstTerminalNone(cands: seq<seq<string>>, spawn: seq<string> -> Spawn)
    ensures FirstTerminal(cands, spawn) == NoProcess <==> AllMissing(cands, spawn)
    decreases |cands|
  {
    if cands != [] {
      FirstTerminalNone(cands[1..], spawn);
      MissingBeforeTail(cands, spawn, |cands|);
    }
  }

  lemma {:induction false} FirstTerminalAnswer(cands: seq<seq<string>>, spawn: seq<string> -> Spawn, k: int)
    requires FirstAnswer(cands, spawn, k)
    ensures spawn(cands[k]).Spawned? ==> FirstTerminal(cands, spawn) == Started(cands[k], spawn(cands[k]).pid)
    ensures spawn(cands[k]).SpawnError? ==> FirstTerminal(cands, spawn) == Raises
    decreases |cands|
  {
    if k > 0 {
      MissingBeforeTail(cands, spawn, k);
      assert cands[1..][k - 1] == cands[k];
      FirstTerminalAnswer(cands[1..], spawn, k - 1);
    }
  }

  lemma FirstAnswerUnique(cands: seq<seq<string>>, spawn: seq<string> -> Spawn, k: int, k': int)
    requires FirstAnswer(cands, spawn, k) && FirstAnswer(cands, spawn, k')
    ensures k == k'
  {
  }

  /** Some candidate answers first unless every one is missing. */
  lemma FirstMissingFails(cands: seq<seq<string>>, spawn: seq<string> -> Spawn) returns (k: int)
    requires !AllMissing(cands, spawn)
    ensures FirstAnswer(cands, spawn, k)
  {
    k := 0;
    while spawn(cands[k]) == NotFound
      invariant 0 <= k < |cands|
      invariant MissingBefore(cands, spawn, k)
      decreases |cands| - k
    {
      k := k + 1;
    }
  }

  /**
   * The terminal search in full: it starts `argv` exactly when `argv` is the
   * first candidate not reported missing and it starts, it raises exactly
   * when that first candidate fails otherwise, and it finds nothing
   * exactly when every candidate is missing.
   */
  lemma FirstTerminalSpec(cands: seq<seq<string>>, spawn: seq<string> -> Spawn, argv: seq<string>, pid: nat)
    ensures FirstTerminal(cands, spawn) == Started(argv, pid)
        <==> exists k :: FirstAnswer(cands, spawn, k) && cands[k] == argv && spawn(argv) == Spawned(pid)
    ensures FirstTerminal(cands, spawn) == Raises
        <==> exists k :: FirstAnswer(cands, spawn, k) && spawn(cands[k]) == SpawnError
    ensures FirstTerminal(cands, spawn) == NoProcess <==> AllMissing(cands, spawn)
  {
    FirstTerminalNone(cands, spawn);
    if !AllMissing(cands, spawn) {
      var k := FirstMissingFails(cands, spawn);
      FirstTerminalAnswer(cands, spawn, k);
      forall k' | FirstAnswer(cands, spawn, k') ensures k' == k { FirstAnswerUnique(cands, spawn, k, k'); }
    }
  }

  /**
   * `launch_module_in_terminal`. `doneExists` says whether the done file
   * exists on entry; the method removes it, so it never exists once the
   * module is started. `logOpens` says whether the log opens for append in
   * the fallback path. The result is the first terminal that starts, or
   * the background fallback when every terminal is missing.
   */
  method LaunchModuleInTerminal(moduleCmd: seq<string>, logfile: string, donefile: string,
                                title: Option<string>, doneExists: bool, logOpens: bool,
                                spawn: seq<string> -> Spawn)
    returns (result: Launch, doneAfter: bool)
    ensures !doneAfter
    ensures var cands := Candidates(title, Wrapper(moduleCmd, logfile, donefile));
            if AllMissing(cands, spawn) then result == Background(moduleCmd, logOpens, spawn)
            else result == FirstTerminal(cands, spawn)
  {
    doneAfter := doneExists;
    if doneAfter {
      doneAfter := false;
    }
    var wrapper := Wrapper(moduleCmd, logfile, donefile);
    var cands := Candidates(title, wrapper);
    var i := 0;
    while i < |cands|
      invariant 0 <= i <= |cands|
      invariant MissingBefore(cands, spawn, i)
      invariant FirstTerminal(cands, spawn) == FirstTerminal(cands[i..], spawn)
    {
      assert cands[i..][0] == cands[i];
      match spawn(cands[i]) {
        case Spawned(pid) =>
          FirstTerminalNone(cands[i..], spawn);
          result := Started(cands[i], pid);
          return;
        case SpawnError =>
          FirstTerminalNone(cands[i..], spawn);
          result := Raises;
          return;
        case NotFound =>
      }
      assert cands[i..][1..] == cands[i + 1..];
      i := i + 1;
    }
    if moduleCmd == [] {
      result := Raises;
    } else if !logOpens {
      result := NoProcess;
    } else {
      match spawn(moduleCmd) {
        case Spawned(pid) => result := Started(moduleCmd, pid);
        case NotFound => result := NoProcess;
        case SpawnError => result := NoProcess;
      }
    }
  }

  /**
   * The fallback runs only when no terminal answers, and then runs the
   * module command itself, never a terminal.
   */
  lemma BackgroundRunsCommand(moduleCmd: seq<string>, logOpens: bool, spawn: seq<string> -> Spawn)
    ensures Background(moduleCmd, logOpens, spawn).Started? ==>
              Background(moduleCmd, logOpens, spawn).argv == moduleCmd && logOpens
              && spawn(moduleCmd).Spawned?
    ensures Background(moduleCmd, logOpens, spawn) == Raises <==> moduleCmd == []
  {
  }

  // ---------------------------------------------------------------------
  // Waiting for the done file
  // ---------------------------------------------------------------------

  /**
   * One pass of the polling loop: whether the done file existed when
   * checked, and the seconds elapsed since the start when the clock was
   * read just after.
   */
  datatype Poll = Poll(doneExists: bool, elapsed: real)

  /** How the wait ends: True, False, or still polling when the trace ends. */
  datatype Wait = Done | GaveUp | StillPolling

  predicate Expired(p: Poll, timeout: Option<int>)
  {
    timeout.Some? && p.elapsed > timeout.value as real
  }

  /** The outcome of `wait_for_done` over the polls it makes. */
  function WaitOutcome(polls: seq<Poll>, timeout: Option<int>): Wait
    decreases |polls|
  {
    if polls == [] then StillPolling
    else if polls[0].doneExists then Done
    else if Expired(polls[0], timeout) then GaveUp
    else WaitOutcome(polls[1..], timeout)
  }

  /**
   * `wait_for_done`: polls until the done file exists (True) or, with a
   * timeout, until more than `timeout` seconds have passed (False).
   * `polls` are the observations the loop would make; `StillPolling` means the
   * loop is still running after the last of them.
   */
  method WaitForDone(polls: seq<Poll>, timeout: Option<int>) returns (r: Wait)
    ensures r == WaitOutcome(polls, timeout)
  {
    var i := 0;
    while i < |polls|
      invariant 0 <= i <= |polls|
      invariant WaitOutcome(polls, timeout) == WaitOutcome(polls[i..], timeout)
    {
      assert polls[i..][0] == polls[i] && polls[i..][1..] == polls[i + 1..];
      if polls[i].doneExists {
        return Done;
      }
      if timeout.Some? && polls[i].elapsed > timeout.value as real {
        return GaveUp;
      }
      i := i + 1;
    }
    r := StillPolling;
  }

  /** Nothing decided in the first `k` polls. */
  ghost predicate Undecided(polls: seq<Poll>, timeout: Option<int>, k: int)
  {
    k <= |polls| && forall j :: 0 <= j < k ==> !polls[j].doneExists && !Expired(polls[j], timeout)
  }

  /**
   * The wait succeeds exactly when the done file shows up before the
   * timeout has been seen to expire, and fails exactly when the timeout
   * expires first; without a timeout it never fails.
   */
  lemma {:induction false} WaitOutcomeSpec(polls: seq<Poll>, timeout: Option<int>)
    ensures WaitOutcome(polls, timeout) == Done
        <==> exists k :: 0 <= k < |polls| && Undecided(polls, timeout, k) && polls[k].doneExists
    ensures WaitOutcome(polls, timeout) == GaveUp
        <==> exists k :: 0 <= k < |polls| && Undecided(polls, timeout, k)
                         && !polls[k].doneExists && Expired(polls[k], timeout)
    ensures timeout.None? ==> WaitOutcome(polls, timeout) != GaveUp
    decreases |polls|
  {
    if polls != [] {
      var t := polls[1..];
      WaitOutcomeSpec(t, timeout);
      forall k | 0 < k <= |t| ensures Undecided(polls, timeout, k) <==> Undecided(polls, timeout, 1) && Undecided(t, timeout, k - 1) {
        if Undecided(polls, timeout, 1) && Undecided(t, timeout, k - 1) {
          forall j | 0 <= j < k ensures !polls[j].doneExists && !Expired(polls[j], timeout) {
            if j > 0 { assert polls[j] == t[j - 1]; }
          }
        }
        if Undecided(polls, timeout, k) {
          forall j | 0 <= j < k - 1 ensures !t[j].doneExists && !Expired(t[j], timeout) {
            assert t[j] == polls[j + 1];
          }
        }
      }
      if !polls[0].doneExists && !Expired(polls[0], timeout) {
        // Witnesses move between `polls` and its tail by one position.
        if WaitOutcome(t, timeout) == Done {
          var k :| 0 <= k < |t| && Undecided(t, timeout, k) && t[k].doneExists;
          assert Undecided(polls, timeout, k + 1) && polls[k + 1].doneExists;
        }
        if WaitOutcome(t, timeout) == GaveUp {
          var k :| 0 <= k < |t| && Undecided(t, timeout, k) && !t[k].doneExists && Expired(t[k], timeout);
          assert Undecided(polls, timeout, k + 1) && polls[k + 1] == t[k];
        }
        forall k | 0 <= k < |polls| && Undecided(polls, timeout, k) && polls[k].doneExists
          ensures WaitOutcome(t, timeout) == Done
        {
          assert k > 0 && polls[k] == t[k - 1];
        }
        forall k | 0 <= k < |polls| && Undecided(polls, timeout, k) && !polls[k].doneExists && Expired(polls[k], timeout)
          ensures WaitOutcome(t, timeout) == GaveUp
        {
          assert k > 0 && polls[k] == t[k - 1];
        }
      } else {
        forall k | 0 <= k < |polls| && Undecided(polls, timeout, k) ensures k == 0 { }
      }
    }
  }

  // ---------------------------------------------------------------------
  // Required tools
  // ---------------------------------------------------------------------

  /** The tools `which` does not find, in the order they are listed. */
  function MissingTools(tools: seq<string>, installed: string -> bool): (r: seq<string>)
    ensures |r| <= |tools|
  {
    if tools == [] then []
    else MissingTools(tools[..|tools| - 1], installed)
         + (if installed(tools[|tools| - 1]) then [] else [tools[|tools| - 1]])
  }

  /** A tool is reported missing exactly when it is listed and not installed. */
  lemma {:induction false} MissingToolsSpec(tools: seq<string>, installed: string -> bool)
    ensures forall t :: t in MissingTools(tools, installed) <==> t in tools && !installed(t)
    decreases |tools|
  {
    if tools != [] {
      var init := tools[..|tools| - 1];
      MissingToolsSpec(init, installed);
      assert tools == init + [tools[|tools| - 1]];
    }
  }

  /** `check_required_tools`: `installed(t)` is `which(t)` finding an executable. */
  method CheckRequiredTools(tools: seq<string>, installed: string -> bool) returns (missing: seq<string>)
    ensures missing == MissingTools(tools, installed)
  {
    missing := [];
    var i := 0;
    while i < |tools|
      invariant 0 <= i <= |tools|
      invariant missing == MissingTools(tools[..i], installed)
    {
      assert tools[..i + 1][..i] == tools[..i];
      if !installed(tools[i]) {
        missing := missing + [tools[i]];
      }
      i := i + 1;
    }
    assert tools[..i] == tools;
  }
}
