/**
 * Installer command lines: reading the `--installPath` value out of the
 * user's additional arguments, and adding required flags to them.
 *
 * An argument string is read as a sequence of tokens. Blanks (space, tab)
 * separate tokens. A token starting with a double quote runs to the next
 * double quote; the quotes are dropped and the blanks between them are
 * kept. Any other token runs to the next blank.
 */
module Arguments {
  import opened Wrappers

  /** The flag whose value names the install folder. */
  const InstallPathFlag: string := "--installPath"

  const Quote: char := '"'

  predicate IsBlank(c: char) {
    c == ' ' || c == '\t'
  }

  /** A token that stands for itself: not empty, no blank and no quote. */
  predicate Plain(token: string) {
    |token| > 0 && forall i :: 0 <= i < |token| ==> !IsBlank(token[i]) && token[i] != Quote
  }

  predicate AllPlain(tokens: seq<string>) {
    forall i :: 0 <= i < |tokens| ==> Plain(tokens[i])
  }

  /** `s` without its leading blanks. */
  function TrimStart(s: string): (t: string)
    ensures |t| <= |s|
    ensures forall i :: 0 <= i < |s| - |t| ==> IsBlank(s[i])
    ensures t == [] || !IsBlank(t[0])
  {
    if s != [] && IsBlank(s[0]) then TrimStart(s[1..]) else s
  }

  /** The longest prefix of `s` without a blank. */
  function Word(s: string): (w: string)
    ensures w <= s
    ensures forall i :: 0 <= i < |w| ==> !IsBlank(w[i])
    ensures |w| < |s| ==> IsBlank(s[|w|])
  {
    if s == [] || IsBlank(s[0]) then [] else [s[0]] + Word(s[1..])
  }

  /** The longest prefix of `s` without a double quote. */
  function UpToQuote(s: string): (q: string)
    ensures q <= s
    ensures Quote !in q
    ensures |q| < |s| ==> s[|q|] == Quote
  {
    if s == [] || s[0] == Quote then [] else [s[0]] + UpToQuote(s[1..])
  }

  /**
   * One token read from the front of `s`, the text after it, and whether
   * the token was complete (a quoted token whose closing quote is missing
   * is not).
   */
  datatype Scan = Scan(token: string, rest: string, closed: bool)

  function NextToken(s: string): (sc: Scan)
    requires s != [] && !IsBlank(s[0])
    ensures |sc.rest| < |s| && sc.rest == s[|s| - |sc.rest|..]
  {
    if s[0] == Quote then
      var body := UpToQuote(s[1..]);
      if |body| < |s| - 1 then Scan(body, s[|body| + 2..], true) else Scan(body, [], false)
    else
      var w := Word(s);
      Scan(w, s[|w|..], true)
  }

  /** The tokens of an argument string, in order; each takes up at least one character. */
  function Tokens(s: string): (ts: seq<string>)
    ensures |ts| <= |s|
    decreases |s|
  {
    var t := TrimStart(s);
    if t == [] then [] else
      var sc := NextToken(t);
      [sc.token] + Tokens(sc.rest)
  }

  /** No quoted token of `s` is left open, so text appended after a blank starts new tokens. */
  predicate Closed(s: string)
    decreases |s|
  {
    var t := TrimStart(s);
    t == [] || (NextToken(t).closed && Closed(NextToken(t).rest))
  }

  /**
   * The value that follows the first occurrence of `flag`; none when the
   * flag does not occur or its first occurrence is the last token.
   */
  function ValueAfter(tokens: seq<string>, flag: string): (v: Option<string>)
    ensures v.Some? <==> exists i :: 0 <= i < |tokens| - 1 && tokens[i] == flag && flag !in tokens[..i]
    ensures v.Some? ==> exists i :: 0 <= i < |tokens| - 1 && tokens[i] == flag && flag !in tokens[..i] && tokens[i + 1] == v.value
    decreases |tokens|
  {
    if |tokens| < 2 then None
    else if tokens[0] == flag then Some(tokens[1])
    else
      var v := ValueAfter(tokens[1..], flag);
      FirstOccurrenceShift(tokens, flag);
      v
  }

  /** The first occurrence of `flag` in `tokens` past a non-matching head is the one in its tail. */
  lemma FirstOccurrenceShift(tokens: seq<string>, flag: string)
    requires |tokens| >= 2 && tokens[0] != flag
    ensures forall i :: 1 <= i < |tokens| ==>
              (tokens[i] == flag && flag !in tokens[..i] <==> tokens[1..][i - 1] == flag && flag !in tokens[1..][..i - 1])
  {
    forall i | 1 <= i < |tokens|
      ensures tokens[..i] == [tokens[0]] + tokens[1..][..i - 1]
    {
    }
  }

  /**
   * The install path given in an installer argument string: the value of
   * its first `--installPath` flag, unquoted; none for a null string or one
   * without the flag.
   */
  function ExtractInstallPath(arguments: Option<string>): (path: Option<string>)
    ensures arguments.None? ==> path.None?
    ensures arguments.Some? ==> path == ValueAfter(Tokens(arguments.value), InstallPathFlag)
  {
    match arguments
    case None => None
    case Some(s) => ValueAfter(Tokens(s), InstallPathFlag)
  }

  /** `args` with `flag` added after a single space, unless it already holds that token. */
  function EnsureArgument(args: string, flag: string): (r: string)
    ensures args <= r
  {
    if flag in Tokens(args) then args
    else if args == "" then flag
    else args + " " + flag
  }

  /**
   * `base` with each flag of `toAdd` that it does not already hold added in
   * order, each after a single space.
   */
  function EnsureArguments(base: string, toAdd: seq<string>): (args: string)
    ensures base <= args
    decreases |toAdd|
  {
    if toAdd == [] then base else EnsureArguments(EnsureArgument(base, toAdd[0]), toAdd[1..])
  }

  /**
   * The flags of `toAdd` that are not among `tokens`, in order, each kept
   * once: a flag already kept counts as present for the later ones.
   */
  function Missing(tokens: seq<string>, toAdd: seq<string>): (m: seq<string>)
    ensures forall i :: 0 <= i < |m| ==> m[i] in toAdd && m[i] !in tokens
    ensures forall i :: 0 <= i < |toAdd| ==> toAdd[i] in tokens || toAdd[i] in m
    ensures Distinct(m)
    decreases |toAdd|
  {
    if toAdd == [] then []
    else if toAdd[0] in tokens then Missing(tokens, toAdd[1..])
    else [toAdd[0]] + Missing(tokens + [toAdd[0]], toAdd[1..])
  }

  /** The place of the first `x` in `s`, or `|s|` when there is none. */
  function IndexOf(s: seq<string>, x: string): (i: nat)
    ensures i <= |s|
    ensures i < |s| <==> x in s
    ensures i < |s| ==> s[i] == x && x !in s[..i]
  {
    if s == [] then 0
    else if s[0] == x then 0
    else
      var i := 1 + IndexOf(s[1..], x);
      assert s[..i] == [s[0]] + s[1..][..i - 1];
      i
  }

  /** The flags of `m` come in the order of their first places in `s`. */
  predicate InOrder(m: seq<string>, s: seq<string>) {
    forall i, j :: 0 <= i < j < |m| ==> IndexOf(s, m[i]) < IndexOf(s, m[j])
  }

  /** Flags in order along the tail, none of them the head, are in order along the whole. */
  lemma InOrderShift(m: seq<string>, s: seq<string>)
    requires s != [] && s[0] !in m && InOrder(m, s[1..])
    ensures InOrder(m, s) && InOrder([s[0]] + m, s)
  {
    forall i | 0 <= i < |m|
      ensures IndexOf(s, m[i]) == 1 + IndexOf(s[1..], m[i])
    {
      assert m[i] != s[0];
    }
    var n := [s[0]] + m;
    forall i, j | 0 <= i < j < |n|
      ensures IndexOf(s, n[i]) < IndexOf(s, n[j])
    {
      assert n[j] == m[j - 1];
      if i > 0 {
        assert n[i] == m[i - 1];
      }
    }
  }

  /** The kept flags keep the order they have in `toAdd`. */
  lemma {:induction false} MissingKeepsOrder(tokens: seq<string>, toAdd: seq<string>)
    ensures InOrder(Missing(tokens, toAdd), toAdd)
    decreases |toAdd|
  {
    if toAdd != [] {
      if toAdd[0] in tokens {
        var m := Missing(tokens, toAdd[1..]);
        MissingKeepsOrder(tokens, toAdd[1..]);
        assert toAdd[0] !in m;
        InOrderShift(m, toAdd);
      } else {
        var rest := Missing(tokens + [toAdd[0]], toAdd[1..]);
        MissingKeepsOrder(tokens + [toAdd[0]], toAdd[1..]);
        assert toAdd[0] !in rest;
        InOrderShift(rest, toAdd);
      }
    }
  }

  /** Tokens each followed by one space. */
  function Join(tokens: seq<string>): (s: string)
  {
    if tokens == [] then "" else tokens[0] + " " + Join(tokens[1..])
  }

  /** Flags each preceded by one space. */
  function Spaced(flags: seq<string>): (s: string)
  {
    if flags == [] then "" else " " + flags[0] + Spaced(flags[1..])
  }

  // ---------------------------------------------------------------------
  // The tokenizer

  /** What `TrimStart` leaves is the end of its input. */
  lemma {:induction false} TrimStartIsSuffix(s: string)
    ensures TrimStart(s) == s[|s| - |TrimStart(s)|..]
  {
    if s != [] && IsBlank(s[0]) {
      TrimStartIsSuffix(s[1..]);
      assert s[1..][|s| - 1 - |TrimStart(s)|..] == s[|s| - |TrimStart(s)|..];
    }
  }

  /** A string has no tokens exactly when it is all blanks. */
  lemma NoTokensIffBlank(s: string)
    ensures Tokens(s) == [] <==> forall i :: 0 <= i < |s| ==> IsBlank(s[i])
  {
    var t := TrimStart(s);
    if t != [] {
      TrimStartIsSuffix(s);
      assert s[|s| - |t|] == t[0];
    }
  }

  lemma TrimStartIdempotent(s: string)
    ensures TrimStart(TrimStart(s)) == TrimStart(s)
    ensures Tokens(TrimStart(s)) == Tokens(s)
    ensures Closed(TrimStart(s)) == Closed(s)
  {
  }

  lemma {:induction false} TrimStartAppend(s: string, x: string)
    ensures TrimStart(s) != [] ==> TrimStart(s + x) == TrimStart(s) + x
    ensures TrimStart(s) == [] ==> TrimStart(s + x) == TrimStart(x)
  {
    if s == [] {
      assert s + x == x;
    } else if IsBlank(s[0]) {
      assert (s + x)[1..] == s[1..] + x;
      TrimStartAppend(s[1..], x);
    }
  }

  lemma {:induction false} WordAppend(s: string, x: string)
    requires |Word(s)| < |s| || x == [] || IsBlank(x[0])
    ensures Word(s + x) == Word(s)
  {
    if s != [] && !IsBlank(s[0]) {
      assert (s + x)[1..] == s[1..] + x;
      WordAppend(s[1..], x);
    }
  }

  lemma {:induction false} UpToQuoteAppend(s: string, x: string)
    requires |UpToQuote(s)| < |s|
    ensures UpToQuote(s + x) == UpToQuote(s)
  {
    if s[0] != Quote {
      assert (s + x)[1..] == s[1..] + x;
      UpToQuoteAppend(s[1..], x);
    }
  }

  /** Appending text that starts with a blank does not change a complete first token. */
  lemma NextTokenAppend(t: string, x: string)
    requires t != [] && !IsBlank(t[0]) && NextToken(t).closed
    requires x == [] || IsBlank(x[0])
    ensures NextToken(t + x) == Scan(NextToken(t).token, NextToken(t).rest + x, true)
  {
    if t[0] == Quote {
      QuotedNextTokenAppend(t, x);
    } else {
      WordNextTokenAppend(t, x);
    }
  }

  lemma QuotedNextTokenAppend(t: string, x: string)
    requires t != [] && t[0] == Quote && NextToken(t).closed
    ensures NextToken(t + x) == Scan(NextToken(t).token, NextToken(t).rest + x, true)
  {
    var s := t + x;
    var body := UpToQuote(t[1..]);
    assert |body| < |t| - 1;
    assert s[1..] == t[1..] + x;
    UpToQuoteAppend(t[1..], x);
    assert s[|body| + 2..] == t[|body| + 2..] + x;
  }

  lemma WordNextTokenAppend(t: string, x: string)
    requires t != [] && !IsBlank(t[0]) && t[0] != Quote
    requires x == [] || IsBlank(x[0])
    ensures NextToken(t + x) == Scan(NextToken(t).token, NextToken(t).rest + x, true)
  {
    var s := t + x;
    WordAppend(t, x);
    var w := Word(t);
    assert s[|w|..] == t[|w|..] + x;
  }

  /** A plain token reads back as itself, up to the next blank. */
  lemma PlainTokenFirst(token: string, rest: string)
    requires Plain(token) && (rest == [] || IsBlank(rest[0]))
    ensures Tokens(token + rest) == [token] + Tokens(rest)
    ensures Closed(token + rest) == Closed(rest)
  {
    var s := token + rest;
    assert TrimStart(s) == s;
    WordAppend(token, rest);
    assert Word(token) == token;
    assert NextToken(s) == Scan(token, rest, true);
  }

  /** A quoted value reads back as one token, without its quotes and with its blanks. */
  /** A plain token on its own is its one token. */
  lemma PlainAlone(token: string)
    requires Plain(token)
    ensures Closed(token) && Tokens(token) == [token]
  {
    PlainTokenFirst(token, []);
    assert token + [] == token;
  }

  lemma QuotedTokenFirst(value: string, rest: string)
    requires Quote !in value
    ensures Tokens([Quote] + value + [Quote] + rest) == [value] + Tokens(rest)
    ensures Closed([Quote] + value + [Quote] + rest) == Closed(rest)
  {
    var s := [Quote] + value + [Quote] + rest;
    assert TrimStart(s) == s;
    var inner := value + [Quote];
    UpToClosingQuote(value);
    assert s[1..] == inner + rest;
    UpToQuoteAppend(inner, rest);
    assert s[|value| + 2..] == rest;
    assert NextToken(s) == Scan(value, rest, true);
  }

  lemma {:induction false} UpToClosingQuote(value: string)
    requires Quote !in value
    ensures UpToQuote(value + [Quote]) == value
  {
    if value != [] {
      assert (value + [Quote])[1..] == value[1..] + [Quote];
      UpToClosingQuote(value[1..]);
    }
  }

  /** Leading blanks separate nothing. */
  lemma BlankFirst(rest: string)
    ensures Tokens(" " + rest) == Tokens(rest)
    ensures Closed(" " + rest) == Closed(rest)
  {
    assert TrimStart(" " + rest) == TrimStart(rest) by {
      assert (" " + rest)[1..] == rest;
    }
  }

  lemma ConsAppend<T>(a: seq<T>, b: seq<T>)
    requires a != []
    ensures a + b == [a[0]] + (a[1..] + b)
  {
  }

  /** Plain tokens joined by spaces read back as those tokens. */
  lemma {:induction false} TokensOfJoin(tokens: seq<string>, rest: string)
    requires AllPlain(tokens)
    ensures Tokens(Join(tokens) + rest) == tokens + Tokens(rest)
    ensures Closed(Join(tokens) + rest) == Closed(rest)
  {
    if tokens == [] {
      assert Join(tokens) + rest == rest;
    } else {
      var head, tail := tokens[0], Join(tokens[1..]) + rest;
      var s := Join(tokens) + rest;
      assert s == head + (" " + tail);
      assert Plain(head);
      PlainTokenFirst(head, " " + tail);
      assert Tokens(s) == [head] + Tokens(" " + tail);
      BlankFirst(tail);
      TokensOfJoin(tokens[1..], rest);
      assert Tokens(s) == [head] + (tokens[1..] + Tokens(rest));
      ConsAppend(tokens, Tokens(rest));
      assert Closed(s) == Closed(" " + tail) == Closed(tail);
    }
  }

  /** After nothing but blanks, a space and a plain flag give that one token. */
  lemma AppendPlainToBlanks(s: string, flag: string)
    requires TrimStart(s) == [] && Plain(flag)
    ensures Tokens(s + " " + flag) == [flag] && Tokens(s) == []
    ensures Closed(s + " " + flag)
  {
    var x := " " + flag;
    assert s + " " + flag == s + x;
    TrimStartAppend(s, x);
    TrimStartIdempotent(s);
    TrimStartIdempotent(s + x);
    TrimStartIdempotent(x);
    BlankFirst(flag);
    PlainTokenFirst(flag, []);
    assert flag + [] == flag;
    assert Tokens(flag) == [flag] && Closed(flag);
    assert Tokens(s + x) == Tokens(TrimStart(x)) == Tokens(x);
    assert Closed(s + x) == Closed(TrimStart(x)) == Closed(x);
  }

  /** After a closed string, a space and a plain flag add exactly one token. */
  lemma {:induction false} TokensAppendPlain(s: string, flag: string)
    requires Closed(s) && Plain(flag)
    ensures Tokens(s + " " + flag) == Tokens(s) + [flag]
    ensures Closed(s + " " + flag)
    decreases |s|
  {
    var t := TrimStart(s);
    if t == [] {
      AppendPlainToBlanks(s, flag);
    } else {
      var x := " " + flag;
      assert s + " " + flag == s + x;
      TrimStartAppend(s, x);
      TrimStartIdempotent(s);
      TrimStartIdempotent(s + x);
      var sc := NextToken(t);
      NextTokenAppend(t, x);
      assert sc.rest + x == sc.rest + " " + flag;
      TokensAppendPlain(sc.rest, flag);
      assert [sc.token] + Tokens(sc.rest) + [flag] == [sc.token] + (Tokens(sc.rest) + [flag]);
    }
  }

  // ---------------------------------------------------------------------
  // extractInstallPath

  /** A null argument string holds no install path. */
  lemma NoInstallPathInNull()
    ensures ExtractInstallPath(None) == None
  {
  }

  /** Without the flag among its tokens, an argument string holds no install path. */
  lemma NoInstallPathWithoutFlag(arguments: string)
    requires InstallPathFlag !in Tokens(arguments)
    ensures ExtractInstallPath(Some(arguments)) == None
  {
  }

  /** The value after the first occurrence of the flag is found, whatever follows. */
  lemma {:induction false} ValueAfterFirstFlag(before: seq<string>, flag: string, value: string, after: seq<string>)
    requires flag !in before
    ensures ValueAfter(before + [flag, value] + after, flag) == Some(value)
  {
    if before != [] {
      assert (before + [flag, value] + after)[1..] == before[1..] + [flag, value] + after;
      ValueAfterFirstFlag(before[1..], flag, value, after);
    }
  }

  lemma Regroup<T>(a: seq<T>, x: T, y: T, b: seq<T>)
    ensures (a + [x]) + ([y] + b) == a + [x, y] + b
  {
  }

  /** The tokens of plain arguments, the flag and a quoted value, then anything. */
  lemma TokensWithQuotedValue(before: seq<string>, value: string, after: string)
    requires AllPlain(before) && Quote !in value
    ensures Tokens(Join(before) + InstallPathFlag + " " + [Quote] + value + [Quote] + after)
            == before + [InstallPathFlag, value] + Tokens(after)
  {
    var quoted := [Quote] + value + [Quote] + after;
    var pre := before + [InstallPathFlag];
    JoinSnoc(before, InstallPathFlag);
    assert Join(before) + InstallPathFlag + " " + [Quote] + value + [Quote] + after == Join(pre) + quoted;
    assert AllPlain(pre);
    TokensOfJoin(pre, quoted);
    QuotedTokenFirst(value, after);
    Regroup(before, InstallPathFlag, value, Tokens(after));
  }

  /** The tokens of plain arguments, the flag and a plain value, then a blank and anything. */
  lemma TokensWithPlainValue(before: seq<string>, value: string, after: string)
    requires AllPlain(before) && Plain(value) && (after == [] || IsBlank(after[0]))
    ensures Tokens(Join(before) + InstallPathFlag + " " + value + after)
            == before + [InstallPathFlag, value] + Tokens(after)
  {
    var pre := before + [InstallPathFlag];
    JoinSnoc(before, InstallPathFlag);
    assert Join(before) + InstallPathFlag + " " + value + after == Join(pre) + (value + after);
    assert AllPlain(pre);
    TokensOfJoin(pre, value + after);
    PlainTokenFirst(value, after);
    Regroup(before, InstallPathFlag, value, Tokens(after));
  }

  /**
   * A quoted install path after plain arguments is returned without its
   * quotes and with its blanks; anything after it, another `--installPath`
   * included, is ignored.
   */
  lemma ExtractQuotedInstallPath(before: seq<string>, value: string, after: string)
    requires AllPlain(before) && InstallPathFlag !in before && Quote !in value
    ensures ExtractInstallPath(Some(Join(before) + InstallPathFlag + " " + [Quote] + value + [Quote] + after)) == Some(value)
  {
    TokensWithQuotedValue(before, value, after);
    ValueAfterFirstFlag(before, InstallPathFlag, value, Tokens(after));
  }

  /** An unquoted install path after plain arguments is returned as it is. */
  lemma ExtractPlainInstallPath(before: seq<string>, value: string, after: string)
    requires AllPlain(before) && InstallPathFlag !in before && Plain(value)
    requires after == [] || IsBlank(after[0])
    ensures ExtractInstallPath(Some(Join(before) + InstallPathFlag + " " + value + after)) == Some(value)
  {
    TokensWithPlainValue(before, value, after);
    ValueAfterFirstFlag(before, InstallPathFlag, value, Tokens(after));
  }

  lemma {:induction false} JoinSnoc(tokens: seq<string>, last: string)
    ensures Join(tokens + [last]) == Join(tokens) + last + " "
  {
    if tokens != [] {
      assert (tokens + [last])[1..] == tokens[1..] + [last];
      JoinSnoc(tokens[1..], last);
    }
  }

  // ---------------------------------------------------------------------
  // The installer test cases for extractInstallPath

  /** Plain arguments without the flag hold no install path. */
  lemma NoInstallPathAmongPlain(before: seq<string>, last: string)
    requires AllPlain(before) && Plain(last) && InstallPathFlag !in before && last != InstallPathFlag
    ensures ExtractInstallPath(Some(Join(before) + last)) == None
  {
    TokensOfJoin(before, last);
    PlainTokenFirst(last, []);
    assert last + [] == last;
    assert Tokens(Join(before) + last) == before + [last];
    NoInstallPathWithoutFlag(Join(before) + last);
  }

  lemma NoRestartText(args: string)
    requires args == "--quiet --norestart"
    ensures args == Join(["--quiet"]) + "--norestart"
  {
    assert Join(["--quiet"]) == "--quiet" + " " + Join([]);
    assert args == "--quiet " + "--norestart";
  }

  lemma QuotedText(args: string)
    requires args == "--quiet --installPath \"C:\\Program Files\\MSBuild\""
    ensures args == Join(["--quiet"]) + InstallPathFlag + " " + [Quote] + "C:\\Program Files\\MSBuild" + [Quote]
  {
    var head, quoted := "--quiet --installPath ", "\"C:\\Program Files\\MSBuild\"";
    QuotedTextSplit(args, head, quoted);
    QuotedTextPieces(head, quoted);
    assert head + quoted == Join(["--quiet"]) + InstallPathFlag + " " + ([Quote] + "C:\\Program Files\\MSBuild" + [Quote]);
  }

  lemma QuotedTextSplit(args: string, head: string, quoted: string)
    requires args == "--quiet --installPath \"C:\\Program Files\\MSBuild\""
    requires head == "--quiet --installPath " && quoted == "\"C:\\Program Files\\MSBuild\""
    ensures args == head + quoted
  {
  }

  lemma QuotedTextPieces(head: string, quoted: string)
    requires head == "--quiet --installPath " && quoted == "\"C:\\Program Files\\MSBuild\""
    ensures head == Join(["--quiet"]) + InstallPathFlag + " "
    ensures quoted == [Quote] + "C:\\Program Files\\MSBuild" + [Quote]
  {
    assert Join(["--quiet"]) == "--quiet" + " " + Join([]);
  }

  lemma TwoInstallPathsText(args: string)
    requires args == "--quiet --installPath \"C:\\Program Files\\MSBuild\" --installPath D:\\MSBuild"
    ensures args == "--quiet --installPath \"C:\\Program Files\\MSBuild\"" + " --installPath D:\\MSBuild"
  {
  }

  lemma ExtractFromArgumentsWithoutInstallPath()
    ensures ExtractInstallPath(Some("--quiet --norestart")) == None
  {
    var args := "--quiet --norestart";
    NoRestartText(args);
    assert AllPlain(["--quiet"]) && Plain("--norestart");
    NoInstallPathAmongPlain(["--quiet"], "--norestart");
  }

  lemma ExtractQuotedPathWithBlank()
    ensures ExtractInstallPath(Some("--quiet --installPath \"C:\\Program Files\\MSBuild\"")) == Some("C:\\Program Files\\MSBuild")
  {
    var args := "--quiet --installPath \"C:\\Program Files\\MSBuild\"";
    QuotedText(args);
    assert args == args + "";
    assert AllPlain(["--quiet"]);
    ExtractQuotedInstallPath(["--quiet"], "C:\\Program Files\\MSBuild", "");
  }

  lemma ExtractFirstOfTwoInstallPaths()
    ensures ExtractInstallPath(Some("--quiet --installPath \"C:\\Program Files\\MSBuild\" --installPath D:\\MSBuild")) == Some("C:\\Program Files\\MSBuild")
  {
    var args := "--quiet --installPath \"C:\\Program Files\\MSBuild\" --installPath D:\\MSBuild";
    TwoInstallPathsText(args);
    var first := "--quiet --installPath \"C:\\Program Files\\MSBuild\"";
    QuotedText(first);
    assert AllPlain(["--quiet"]);
    ExtractQuotedInstallPath(["--quiet"], "C:\\Program Files\\MSBuild", " --installPath D:\\MSBuild");
  }

  // ---------------------------------------------------------------------
  // ensureArguments

  /** Adding one plain flag to a closed string adds that token, unless it is already there. */
  lemma EnsureArgumentTokens(args: string, flag: string)
    requires Closed(args) && Plain(flag)
    ensures Closed(EnsureArgument(args, flag))
    ensures Tokens(EnsureArgument(args, flag)) == if flag in Tokens(args) then Tokens(args) else Tokens(args) + [flag]
  {
    if flag !in Tokens(args) {
      if args == "" {
        PlainTokenFirst(flag, []);
        assert flag + [] == flag;
      } else {
        TokensAppendPlain(args, flag);
      }
    }
  }

  /**
   * The base's tokens come first and stay; every flag to add is among the
   * tokens afterwards; no other token appears.
   */
  lemma {:induction false} EnsureArgumentsTokens(base: string, toAdd: seq<string>)
    requires Closed(base) && AllPlain(toAdd)
    ensures Closed(EnsureArguments(base, toAdd))
    ensures Tokens(base) <= Tokens(EnsureArguments(base, toAdd))
    ensures forall i :: 0 <= i < |toAdd| ==> toAdd[i] in Tokens(EnsureArguments(base, toAdd))
    ensures forall token :: token in Tokens(EnsureArguments(base, toAdd)) ==> token in Tokens(base) || token in toAdd
    decreases |toAdd|
  {
    if toAdd != [] {
      var next := EnsureArgument(base, toAdd[0]);
      EnsureArgumentTokens(base, toAdd[0]);
      EnsureArgumentsTokens(next, toAdd[1..]);
      var args := EnsureArguments(base, toAdd);
      assert args == EnsureArguments(next, toAdd[1..]);
      assert Tokens(base) <= Tokens(args);
      forall token | token in Tokens(args)
        ensures token in Tokens(base) || token in toAdd
      {
        if token !in Tokens(next) {
          assert token in toAdd[1..];
        }
      }
      forall i | 0 <= i < |toAdd|
        ensures toAdd[i] in Tokens(args)
      {
        if i == 0 {
          assert toAdd[0] in Tokens(next);
        } else {
          assert toAdd[i] == toAdd[1..][i - 1];
        }
      }
    }
  }

  /** When every flag is already there, nothing changes. */
  lemma {:induction false} EnsureArgumentsPresent(args: string, toAdd: seq<string>)
    requires forall i :: 0 <= i < |toAdd| ==> toAdd[i] in Tokens(args)
    ensures EnsureArguments(args, toAdd) == args
    decreases |toAdd|
  {
    if toAdd != [] {
      assert EnsureArgument(args, toAdd[0]) == args;
      EnsureArgumentsPresent(args, toAdd[1..]);
    }
  }

  /** Ensuring the same flags twice adds nothing the second time. */
  lemma EnsureArgumentsIdempotent(base: string, toAdd: seq<string>)
    requires Closed(base) && AllPlain(toAdd)
    ensures EnsureArguments(EnsureArguments(base, toAdd), toAdd) == EnsureArguments(base, toAdd)
  {
    EnsureArgumentsTokens(base, toAdd);
    EnsureArgumentsPresent(EnsureArguments(base, toAdd), toAdd);
  }

  predicate Distinct(flags: seq<string>) {
    forall i, j :: 0 <= i < j < |flags| ==> flags[i] != flags[j]
  }

  /**
   * Distinct flags, none of them already in a non-empty base, are appended
   * in their given order, each after a single space.
   */
  lemma {:induction false} EnsureArgumentsAppendsMissing(base: string, toAdd: seq<string>)
    requires base != "" && Closed(base) && AllPlain(toAdd) && Distinct(toAdd)
    requires forall i :: 0 <= i < |toAdd| ==> toAdd[i] !in Tokens(base)
    ensures EnsureArguments(base, toAdd) == base + Spaced(toAdd)
    decreases |toAdd|
  {
    if toAdd == [] {
      assert base + Spaced(toAdd) == base;
    } else {
      var flag, more := toAdd[0], toAdd[1..];
      var next := base + " " + flag;
      assert EnsureArgument(base, flag) == next;
      TokensAppendPlain(base, flag);
      MissingAfterAppend(Tokens(base), toAdd);
      EnsureArgumentsAppendsMissing(next, more);
      assert Spaced(toAdd) == " " + flag + Spaced(more);
      SpacedAssoc(base, flag, Spaced(more));
    }
  }

  lemma SpacedAssoc(base: string, flag: string, more: string)
    ensures base + [' '] + flag + more == base + ([' '] + flag + more)
  {
  }

  /** Flags missing from some tokens, and distinct, are missing after the first of them is added. */
  lemma MissingAfterAppend(tokens: seq<string>, toAdd: seq<string>)
    requires toAdd != [] && Distinct(toAdd)
    requires forall i :: 0 <= i < |toAdd| ==> toAdd[i] !in tokens
    ensures Distinct(toAdd[1..])
    ensures forall i :: 0 <= i < |toAdd[1..]| ==> toAdd[1..][i] !in tokens + [toAdd[0]]
  {
    forall i | 0 <= i < |toAdd[1..]|
      ensures toAdd[1..][i] !in tokens + [toAdd[0]]
    {
      assert toAdd[1..][i] == toAdd[i + 1] != toAdd[0];
    }
  }

  lemma WaitNoRestartText(base: string, toAdd: seq<string>)
    requires base == "--quiet" && toAdd == ["--wait", "--norestart"]
    ensures base + Spaced(toAdd) == "--quiet --wait --norestart"
  {
    assert Spaced(toAdd) == " --wait" + Spaced(["--norestart"]);
    assert Spaced(["--norestart"]) == " --norestart";
  }

  lemma WaitNoRestartFlags(toAdd: seq<string>)
    requires toAdd == ["--wait", "--norestart"]
    ensures AllPlain(toAdd) && Distinct(toAdd)
    ensures forall i :: 0 <= i < |toAdd| ==> toAdd[i] !in ["--quiet"]
  {
    assert Plain(toAdd[0]) && Plain(toAdd[1]);
    assert toAdd[0] != toAdd[1];
    assert toAdd[0] != "--quiet" && toAdd[1] != "--quiet";
  }

  /** The installer test case: two new flags are added after `--quiet`. */
  lemma EnsureWaitAndNoRestart()
    ensures EnsureArguments("--quiet", ["--wait", "--norestart"]) == "--quiet --wait --norestart"
  {
    var base, toAdd := "--quiet", ["--wait", "--norestart"];
    PlainAlone(base);
    WaitNoRestartFlags(toAdd);
    EnsureArgumentsAppendsMissing(base, toAdd);
    WaitNoRestartText(base, toAdd);
  }

  /** The installer test case again: adding the same flags a second time changes nothing. */
  lemma EnsureWaitAndNoRestartTwice()
    ensures var once := EnsureArguments("--quiet", ["--wait", "--norestart"]);
            EnsureArguments(once, ["--wait", "--norestart"]) == once
  {
    var base, toAdd := "--quiet", ["--wait", "--norestart"];
    PlainAlone(base);
    WaitNoRestartFlags(toAdd);
    EnsureArgumentsIdempotent(base, toAdd);
  }

  /** Distinct flags none of which is among the tokens are all missing, in their order. */
  lemma {:induction false} MissingOfAbsent(tokens: seq<string>, toAdd: seq<string>)
    requires Distinct(toAdd)
    requires forall i :: 0 <= i < |toAdd| ==> toAdd[i] !in tokens
    ensures Missing(tokens, toAdd) == toAdd
    decreases |toAdd|
  {
    if toAdd != [] {
      MissingAfterAppend(tokens, toAdd);
      MissingOfAbsent(tokens + [toAdd[0]], toAdd[1..]);
    }
  }

  /**
   * For any plain flags and a non-empty base without an open quote, the
   * result is the base followed by the flags it lacks, in their order, each
   * once and each after a single space.
   */
  lemma {:induction false} EnsureArgumentsSpelledOut(base: string, toAdd: seq<string>)
    requires base != "" && Closed(base) && AllPlain(toAdd)
    ensures EnsureArguments(base, toAdd) == base + Spaced(Missing(Tokens(base), toAdd))
    decreases |toAdd|
  {
    if toAdd == [] {
      assert base + Spaced([]) == base;
    } else {
      var flag, more := toAdd[0], toAdd[1..];
      assert AllPlain(more);
      if flag in Tokens(base) {
        assert EnsureArgument(base, flag) == base;
        EnsureArgumentsSpelledOut(base, more);
      } else {
        var next := base + " " + flag;
        assert EnsureArgument(base, flag) == next;
        TokensAppendPlain(base, flag);
        EnsureArgumentsSpelledOut(next, more);
        var m := Missing(Tokens(base) + [flag], more);
        assert Missing(Tokens(base), toAdd) == [flag] + m;
        assert ([flag] + m)[1..] == m;
        assert Spaced([flag] + m) == " " + flag + Spaced(m);
        SpacedAssoc(base, flag, Spaced(m));
      }
    }
  }

  /** On an empty base the first flag is taken as it is. */
  lemma FirstOnEmptyBase(toAdd: seq<string>)
    requires toAdd != []
    ensures EnsureArguments("", toAdd) == EnsureArguments(toAdd[0], toAdd[1..])
  {
    assert Tokens("") == [];
  }

  /** The flags missing from no tokens start with the first flag. */
  lemma MissingFromNone(toAdd: seq<string>)
    requires toAdd != []
    ensures Missing([], toAdd) == [toAdd[0]] + Missing([toAdd[0]], toAdd[1..])
  {
    assert [] + [toAdd[0]] == [toAdd[0]];
  }

  /**
   * On an empty base the first missing flag comes without a leading space:
   * the result with one space put in front is the missing flags, each after
   * a single space.
   */
  lemma EnsureArgumentsOnEmptyBase(toAdd: seq<string>)
    requires toAdd != [] && AllPlain(toAdd)
    ensures " " + EnsureArguments("", toAdd) == Spaced(Missing([], toAdd))
  {
    var flag, more := toAdd[0], toAdd[1..];
    FirstOnEmptyBase(toAdd);
    PlainAlone(flag);
    assert AllPlain(more);
    EnsureArgumentsSpelledOut(flag, more);
    var m := Missing([flag], more);
    MissingFromNone(toAdd);
    assert ([flag] + m)[1..] == m;
    assert Spaced([flag] + m) == " " + flag + Spaced(m);
    ConcatAssoc(" ", flag, Spaced(m));
  }

  lemma ConcatAssoc<T>(a: seq<T>, b: seq<T>, c: seq<T>)
    ensures a + (b + c) == a + b + c
  {
  }

  /** A flag given twice is kept once. */
  lemma RepeatedFlagMissingOnce(tokens: seq<string>, toAdd: seq<string>)
    requires tokens == ["--quiet"] && toAdd == ["--wait", "--wait"]
    ensures AllPlain(toAdd) && Missing(tokens, toAdd) == ["--wait"]
  {
    assert Plain(toAdd[0]) && Plain(toAdd[1]);
    assert toAdd[0] !in tokens;
    assert Missing(tokens + [toAdd[0]], toAdd[1..]) == [];
  }

  /** A flag given twice is added once. */
  lemma EnsureRepeatedFlagOnce(base: string, toAdd: seq<string>)
    requires base == "--quiet" && toAdd == ["--wait", "--wait"]
    ensures EnsureArguments(base, toAdd) == "--quiet --wait"
  {
    PlainAlone(base);
    RepeatedFlagMissingOnce(Tokens(base), toAdd);
    EnsureArgumentsSpelledOut(base, toAdd);
    WaitText(base, ["--wait"]);
  }

  lemma WaitText(base: string, flags: seq<string>)
    requires base == "--quiet" && flags == ["--wait"]
    ensures base + Spaced(flags) == "--quiet --wait"
  {
    assert Spaced(flags) == " --wait" + Spaced([]);
  }
}
