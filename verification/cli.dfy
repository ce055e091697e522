/** The pure command-line helpers of the queueing script (main.py): looking a
    playlist up by name, regrouping shell tokens that were split inside double
    quotes, and the option scanner. Every `sys.exit` of the scanner becomes a
    `ParseError`. */
module Cli {
  import opened Results

  // ----------------------------------------------------------------- playlists

  /** A playlist as listed by the music service; only its name is consulted. */
  datatype Playlist = Playlist(name: string, id: string)

  /** `find_name_in_playlists`: the first playlist called `name`, or nothing
      when no playlist has that name. */
  method FindNameInPlaylists(playlists: seq<Playlist>, name: string) returns (found: Option<Playlist>)
    ensures found.None? <==> forall k :: 0 <= k < |playlists| ==> playlists[k].name != name
    ensures found.Some? ==> found.value.name == name
    ensures found.Some? ==> exists k :: (0 <= k < |playlists| && playlists[k] == found.value
      && forall j :: 0 <= j < k ==> playlists[j].name != name)
  {
    var i := 0;
    while i < |playlists|
      invariant i <= |playlists|
      invariant forall j :: 0 <= j < i ==> playlists[j].name != name
    {
      if playlists[i].name == name {
        return Some(playlists[i]);
      }
      i := i + 1;
    }
    return None;
  }

  // -------------------------------------------------------------------- digits

  predicate IsDigit(c: char) { '0' <= c <= '9' }

  /** `str.isnumeric`, restricted to ASCII: a non-empty run of digits. */
  predicate IsNumeric(s: string)
  {
    |s| > 0 && forall k :: 0 <= k < |s| ==> IsDigit(s[k])
  }

  /** `int` on a string of digits: its decimal value. */
  function DigitsValue(s: string): (n: nat)
    requires forall k :: 0 <= k < |s| ==> IsDigit(s[k])
    decreases |s|
  {
    if |s| == 0 then 0
    else
      assert IsDigit(s[|s| - 1]);
      10 * DigitsValue(s[..|s| - 1]) + (s[|s| - 1] as int - '0' as int)
  }

  predicate AllZeros(s: string)
  {
    forall k :: 0 <= k < |s| ==> s[k] == '0'
  }

  /** A string of digits has value zero exactly when every digit is `0`: the
      only numeric limits the scanner rejects as below one. */
  lemma {:induction false} DigitsValueZero(s: string)
    requires forall k :: 0 <= k < |s| ==> IsDigit(s[k])
    ensures DigitsValue(s) == 0 <==> AllZeros(s)
    decreases |s|
  {
    if |s| > 0 {
      var init := s[..|s| - 1];
      DigitsValueZero(init);
      assert forall k :: 0 <= k < |init| ==> init[k] == s[k];
    }
  }

  /** The decimal spelling of a natural number, most significant digit first. */
  function Decimal(n: nat): (s: string)
    ensures IsNumeric(s)
  {
    if n < 10 then [Digit(n)]
    else
      var init := Decimal(n / 10);
      var s := init + [Digit(n % 10)];
      assert forall k :: 0 <= k < |init| ==> s[k] == init[k];
      s
  }

  /** The character of a single digit. */
  function Digit(d: nat): (c: char)
    requires d < 10
    ensures IsDigit(c) && c as int - '0' as int == d
  {
    ('0' as int + d) as char
  }

  /** Reading back a number's decimal spelling gives the number. */
  lemma {:induction false} DecimalRoundTrip(n: nat)
    ensures DigitsValue(Decimal(n)) == n
  {
    if n >= 10 {
      DecimalRoundTrip(n / 10);
      var s := Decimal(n);
      assert s[..|s| - 1] == Decimal(n / 10);
    }
  }

  // -------------------------------------------------------------------- quotes

  /** Neither starts nor ends with a double quote. */
  predicate Unquoted(s: string)
  {
    s == [] || (s[0] != '"' && s[|s| - 1] != '"')
  }

  /** `str.strip('"')`: the string with every leading and trailing double
      quote removed, one at a time. What is left neither starts nor ends
      with a quote, and only a string made of quotes vanishes. */
  function StripQuotes(s: string): (r: string)
    ensures Unquoted(r)
    ensures |r| <= |s|
    ensures r == [] <==> forall k :: 0 <= k < |s| ==> s[k] == '"'
    decreases |s|
  {
    if |s| > 0 && s[0] == '"' then
      assert forall k :: 0 < k < |s| ==> s[k] == s[1..][k - 1];
      StripQuotes(s[1..])
    else if |s| > 0 && s[|s| - 1] == '"' then
      assert forall k :: 0 <= k < |s| - 1 ==> s[k] == s[..|s| - 1][k];
      StripQuotes(s[..|s| - 1])
    else s
  }

  /** `s[a..b]` is what is left of `s` once only quotes are cut from its
      two ends. */
  ghost predicate QuoteTrim(s: string, a: nat, b: nat)
  {
    a <= b <= |s|
    && (forall k :: 0 <= k < a ==> s[k] == '"')
    && (forall k :: b <= k < |s| ==> s[k] == '"')
  }

  /** Stripping only cuts quotes from the two ends: the result is a slice of
      the input with nothing but quotes before and after it. */
  lemma {:induction false} StripQuotesSlice(s: string)
    ensures exists a: nat, b: nat :: QuoteTrim(s, a, b) && StripQuotes(s) == s[a..b]
    decreases |s|
  {
    if |s| > 0 && s[0] == '"' {
      var t := s[1..];
      StripQuotesSlice(t);
      var a: nat, b: nat :| QuoteTrim(t, a, b) && StripQuotes(t) == t[a..b];
      assert forall k :: 0 < k < |s| ==> s[k] == t[k - 1];
      assert t[a..b] == s[a + 1..b + 1];
      assert QuoteTrim(s, a + 1, b + 1);
    } else if |s| > 0 && s[|s| - 1] == '"' {
      var t := s[..|s| - 1];
      StripQuotesSlice(t);
      var a: nat, b: nat :| QuoteTrim(t, a, b) && StripQuotes(t) == t[a..b];
      assert t[a..b] == s[a..b];
      assert QuoteTrim(s, a, b);
    } else {
      assert s[0..|s|] == s;
      assert QuoteTrim(s, 0, |s|);
    }
  }

  /** One opening quote in front of an unquoted word is stripped. */
  lemma StripOpening(w: string)
    requires w != [] && Unquoted(w)
    ensures StripQuotes("\"" + w) == w
  {
    assert ("\"" + w)[1..] == w;
  }

  /** One closing quote after an unquoted word is stripped. */
  lemma StripClosing(w: string)
    requires w != [] && Unquoted(w)
    ensures StripQuotes(w + "\"") == w
  {
    assert (w + "\"")[..|w|] == w;
  }

  /** Stripping leaves a string that has no quotes at its ends unchanged. */
  lemma StripUnquoted(s: string)
    requires Unquoted(s)
    ensures StripQuotes(s) == s
  {
  }

  /** Stripping is idempotent. */
  lemma StripTwice(s: string)
    ensures StripQuotes(StripQuotes(s)) == StripQuotes(s)
  {
    StripUnquoted(StripQuotes(s));
  }

  /** The state of `group_quotes` between tokens: the grouped arguments so
      far and whether a quoted group is still open. */
  datatype Grouping = Grouping(ans: seq<string>, inQuotes: bool)

  predicate AllUnquoted(ss: seq<string>)
  {
    forall k :: 0 <= k < |ss| ==> Unquoted(ss[k])
  }

  predicate NonEmptyTokens(tokens: seq<string>)
  {
    forall k :: 0 <= k < |tokens| ==> tokens[k] != []
  }

  /** One token of `group_quotes`. Outside a group the token becomes a new
      argument and opens a group when it starts with a quote; inside a group
      it is appended to the last argument after one space and closes the
      group when it ends with a quote. Either way the last argument is then
      stripped of its outer quotes. */
  function GroupStep(g: Grouping, token: string): (r: Grouping)
    requires token != []
    requires g.inQuotes ==> g.ans != []
    ensures |r.ans| == if g.inQuotes then |g.ans| else |g.ans| + 1
    ensures r.ans != [] && Unquoted(r.ans[|r.ans| - 1])
    ensures forall k :: 0 <= k < |r.ans| - 1 ==> r.ans[k] == g.ans[k]
    ensures !g.inQuotes ==>
      r.ans[|r.ans| - 1] == StripQuotes(token) && (r.inQuotes <==> token[0] == '"')
    ensures g.inQuotes ==>
      r.ans[|r.ans| - 1] == StripQuotes(g.ans[|g.ans| - 1] + " " + token)
      && (r.inQuotes <==> token[|token| - 1] != '"')
  {
    if !g.inQuotes then
      Grouping(g.ans + [StripQuotes(token)], token[0] == '"')
    else
      var last := g.ans[|g.ans| - 1] + " " + token;
      Grouping(g.ans[..|g.ans| - 1] + [StripQuotes(last)], token[|token| - 1] != '"')
  }

  /** Runs `group_quotes` over the remaining tokens. */
  function GroupFrom(g: Grouping, tokens: seq<string>): (r: Grouping)
    requires NonEmptyTokens(tokens)
    requires g.inQuotes ==> g.ans != []
    ensures r.inQuotes ==> r.ans != []
    ensures |r.ans| <= |g.ans| + |tokens|
    ensures AllUnquoted(g.ans) ==> AllUnquoted(r.ans)
    decreases |tokens|
  {
    if |tokens| == 0 then g
    else
      var next := GroupStep(g, tokens[0]);
      assert AllUnquoted(g.ans) ==> AllUnquoted(next.ans);
      GroupFrom(next, tokens[1..])
  }

  /** `group_quotes`: the arguments with quoted groups re-joined. It never
      yields more arguments than it was given, and none of them starts or
      ends with a double quote. Tokens must be non-empty: `group_quotes` indexes
      their first and last characters. */
  function GroupQuotes(argv: seq<string>): (r: seq<string>)
    requires NonEmptyTokens(argv)
    ensures |r| <= |argv|
    ensures AllUnquoted(r)
  {
    GroupFrom(Grouping([], false), argv).ans
  }

  /** Without a token that opens a quote, no grouping happens: every token is
      kept, only stripped of its outer quotes. */
  lemma NoOpeningQuote(argv: seq<string>)
    requires NonEmptyTokens(argv)
    requires forall k :: 0 <= k < |argv| ==> argv[k][0] != '"'
    ensures |GroupQuotes(argv)| == |argv|
    ensures forall k :: 0 <= k < |argv| ==> GroupQuotes(argv)[k] == StripQuotes(argv[k])
  {
    NoOpeningQuoteFrom([], argv);
  }

  lemma {:induction false} NoOpeningQuoteFrom(ans: seq<string>, tokens: seq<string>)
    requires NonEmptyTokens(tokens)
    requires forall k :: 0 <= k < |tokens| ==> tokens[k][0] != '"'
    ensures !GroupFrom(Grouping(ans, false), tokens).inQuotes
    ensures |GroupFrom(Grouping(ans, false), tokens).ans| == |ans| + |tokens|
    ensures forall k :: 0 <= k < |ans| ==> GroupFrom(Grouping(ans, false), tokens).ans[k] == ans[k]
    ensures forall k :: 0 <= k < |tokens| ==>
      GroupFrom(Grouping(ans, false), tokens).ans[|ans| + k] == StripQuotes(tokens[k])
    decreases |tokens|
  {
    if |tokens| > 0 {
      var next := ans + [StripQuotes(tokens[0])];
      var rest := tokens[1..];
      assert GroupStep(Grouping(ans, false), tokens[0]) == Grouping(next, false);
      assert GroupFrom(Grouping(ans, false), tokens) == GroupFrom(Grouping(next, false), rest);
      NoOpeningQuoteFrom(next, rest);
      assert forall k :: 0 < k < |tokens| ==> tokens[k] == rest[k - 1];
    }
  }

  /** Outside a group, a token with one opening quote in front of an
      unquoted word opens a group holding that word. */
  lemma OpenStep(ans: seq<string>, w: string)
    requires w != [] && Unquoted(w)
    ensures GroupStep(Grouping(ans, false), "\"" + w) == Grouping(ans + [w], true)
  {
    StripOpening(w);
  }

  /** Inside a group, a token whose joined text stays unquoted is appended
      after one space, and the group stays open. */
  lemma InsideStep(ans: seq<string>, last: string, w: string)
    requires w != [] && Unquoted(last + " " + w)
    ensures GroupStep(Grouping(ans + [last], true), w)
      == Grouping(ans + [last + " " + w], true)
  {
    var g := Grouping(ans + [last], true);
    assert g.ans[..|g.ans| - 1] == ans;
    StripUnquoted(last + " " + w);
  }

  /** Inside a group, a token ending with one closing quote after an unquoted
      word closes the group. */
  lemma CloseStep(ans: seq<string>, last: string, w: string)
    requires w != [] && Unquoted(last + " " + w)
    ensures GroupStep(Grouping(ans + [last], true), w + "\"")
      == Grouping(ans + [last + " " + w], false)
  {
    var g := Grouping(ans + [last], true);
    assert g.ans[..|g.ans| - 1] == ans;
    assert last + " " + (w + "\"") == (last + " " + w) + "\"";
    StripClosing(last + " " + w);
  }

  /** Grouping three tokens is three steps. */
  lemma GroupThree(g: Grouping, tokens: seq<string>)
    requires |tokens| == 3 && NonEmptyTokens(tokens)
    requires g.inQuotes ==> g.ans != []
    ensures GroupFrom(g, tokens) == GroupStep(GroupStep(GroupStep(g, tokens[0]), tokens[1]), tokens[2])
  {
    var g1 := GroupStep(g, tokens[0]);
    var g2 := GroupStep(g1, tokens[1]);
    var rest1, rest2 := tokens[1..], tokens[2..];
    assert rest1[0] == tokens[1] && rest1[1..] == rest2 && rest2[0] == tokens[2] && |rest2[1..]| == 0;
    assert GroupFrom(g2, rest2) == GroupFrom(GroupStep(g2, tokens[2]), rest2[1..]);
    assert GroupFrom(g1, rest1) == GroupFrom(g2, rest2);
  }

  /** A name quoted over three tokens becomes one argument, its words joined
      by single spaces, whatever came before it. */
  lemma GroupsThreeWords(ans: seq<string>, tokens: seq<string>, w1: string, w2: string, w3: string)
    requires w1 != [] && w2 != [] && w3 != []
    requires Unquoted(w1) && Unquoted(w2) && Unquoted(w3)
    requires tokens == ["\"" + w1, w2, w3 + "\""]
    ensures GroupFrom(Grouping(ans, false), tokens) == Grouping(ans + [w1 + " " + w2 + " " + w3], false)
  {
    var joined := w1 + " " + w2;
    var all := joined + " " + w3;
    assert joined[0] == w1[0] && joined[|joined| - 1] == w2[|w2| - 1];
    assert all[0] == w1[0] && all[|all| - 1] == w3[|w3| - 1];
    GroupThree(Grouping(ans, false), tokens);
    OpenStep(ans, w1);
    InsideStep(ans, w1, w2);
    CloseStep(ans, joined, w3);
  }

  /** An option followed by a name quoted over three tokens becomes the
      option and its one argument, whatever came before. */
  lemma GroupsArgumentFrom(ans: seq<string>, a: string, w1: string, w2: string, w3: string)
    requires a != [] && Unquoted(a)
    requires w1 != [] && w2 != [] && w3 != []
    requires Unquoted(w1) && Unquoted(w2) && Unquoted(w3)
    ensures NonEmptyTokens([a, "\"" + w1, w2, w3 + "\""])
    ensures GroupFrom(Grouping(ans, false), [a, "\"" + w1, w2, w3 + "\""])
      == Grouping(ans + [a, w1 + " " + w2 + " " + w3], false)
  {
    var tokens := [a, "\"" + w1, w2, w3 + "\""];
    assert NonEmptyTokens(tokens) by {
      assert tokens[1][0] == '"' && tokens[3][|tokens[3]| - 1] == '"';
    }
    StripUnquoted(a);
    var g1 := GroupStep(Grouping(ans, false), a);
    assert g1 == Grouping(ans + [a], false);
    GroupsThreeWords(ans + [a], tokens[1..], w1, w2, w3);
    assert GroupFrom(Grouping(ans, false), tokens) == GroupFrom(g1, tokens[1..]);
    assert ans + [a] + [w1 + " " + w2 + " " + w3] == ans + [a, w1 + " " + w2 + " " + w3];
  }

  /** The documented example `-p "my awesome playlist"`: a name quoted over
      three tokens after an option becomes the option's one argument. */
  lemma GroupsQuotedArgument(a: string, w1: string, w2: string, w3: string)
    requires a != [] && Unquoted(a)
    requires w1 != [] && w2 != [] && w3 != []
    requires Unquoted(w1) && Unquoted(w2) && Unquoted(w3)
    ensures NonEmptyTokens([a, "\"" + w1, w2, w3 + "\""])
    ensures GroupQuotes([a, "\"" + w1, w2, w3 + "\""]) == [a, w1 + " " + w2 + " " + w3]
  {
    GroupsArgumentFrom([], a, w1, w2, w3);
  }

  /** The same after a plain token, as in a full command line that starts
      with the program name. */
  lemma GroupsQuotedName(p: string, a: string, w1: string, w2: string, w3: string)
    requires p != [] && a != [] && Unquoted(p) && Unquoted(a)
    requires w1 != [] && w2 != [] && w3 != []
    requires Unquoted(w1) && Unquoted(w2) && Unquoted(w3)
    ensures NonEmptyTokens([p, a, "\"" + w1, w2, w3 + "\""])
    ensures GroupQuotes([p, a, "\"" + w1, w2, w3 + "\""]) == [p, a, w1 + " " + w2 + " " + w3]
  {
    var argv := [p, a, "\"" + w1, w2, w3 + "\""];
    GroupsArgumentFrom([p], a, w1, w2, w3);
    assert argv[1..] == [a, "\"" + w1, w2, w3 + "\""];
    StripUnquoted(p);
    assert GroupStep(Grouping([], false), p) == Grouping([p], false);
    assert GroupFrom(Grouping([], false), argv) == GroupFrom(Grouping([p], false), argv[1..]);
  }

  /** The opening token is never checked for a closing quote: outside a
      group, any token that starts with a quote opens one, even when it also
      ends with a quote. */
  lemma OpeningTokenNotClosed(ans: seq<string>, token: string)
    requires token != [] && token[0] == '"'
    ensures GroupStep(Grouping(ans, false), token).inQuotes
  {
  }

  /** So a fully quoted single word still swallows the token after it. */
  lemma QuotedWordSwallowsNext()
    ensures GroupQuotes(["\"a\"", "b"]) == ["a b"]
  {
    var argv := ["\"a\"", "b"];
    assert argv[0] == "\"" + ("a" + "\"");
    StripClosing("a");
    var g1 := GroupStep(Grouping([], false), argv[0]);
    OpeningTokenNotClosed([], argv[0]);
    assert g1 == Grouping([] + ["a"], true);
    InsideStep([], "a", "b");
    assert GroupFrom(Grouping([], false), argv) == GroupFrom(g1, argv[1..]);
    assert GroupFrom(g1, argv[1..]) == GroupFrom(GroupStep(g1, "b"), argv[1..][1..]);
    assert "a" + " " + "b" == "a b";
  }

  // ------------------------------------------------------------------- options

  /** A queue limit: a positive count, or `inf`. */
  datatype Limit = Limited(n: nat) | Unlimited

  /** The options dictionary `parse_args` returns. */
  datatype Options = Options(
    username: Option<string>,
    playlistName: Option<string>,
    queueLimit: Option<Limit>,
    noDoubleArtist: bool,
    noDoubleAlbum: bool,
    noShuffle: bool,
    offset: nat,
    debug: bool)

  /** Why the script stops instead of returning options. `EmptyToken` is the
      uncaught index error on an empty argument; `HelpRequested` is the exit
      after printing the help text. */
  datatype ParseError =
    | EmptyToken
    | MissingArgument
    | LimitNotInteger
    | LimitBelowOne
    | OffsetNotInteger
    | HelpRequested

  const Defaults := Options(None, None, None, false, false, false, 0, false)

  const UserFlags: set<string> := {"-u", "-user"}
  const PlaylistFlags: set<string> := {"-p", "-playlist"}
  /** The long form has no leading dash. */
  const LimitFlags: set<string> := {"-l", "limit"}
  const OffsetFlags: set<string> := {"-o", "-offset"}
  const HelpFlags: set<string> := {"-help", "-h"}
  /** Every token the scanner reacts to. */
  const Flags: set<string> :=
    UserFlags + PlaylistFlags + LimitFlags + OffsetFlags + HelpFlags + {"-ndar", "-ndal", "-ns", "-debug"}

  /** A value `-l` accepts without checking its size. */
  predicate LimitText(v: string)
  {
    v == "inf" || IsNumeric(v)
  }

  function LimitOf(v: string): (l: Limit)
    requires LimitText(v)
    ensures l.Unlimited? <==> v == "inf"
  {
    if v == "inf" then Unlimited else Limited(DigitsValue(v))
  }

  /** The error, if any, with which token `i` stops the scan. Whether a token
      fails depends only on the tokens, not on the options gathered so far. */
  function Check(argv: seq<string>, i: nat): (e: Option<ParseError>)
    requires i < |argv|
    ensures e == Some(MissingArgument) ==> i + 1 == |argv|
    ensures e.None? && argv[i] in UserFlags + PlaylistFlags + OffsetFlags + LimitFlags ==> i + 1 < |argv|
    ensures e.None? && argv[i] in LimitFlags ==> LimitText(argv[i + 1])
    ensures e.None? && argv[i] in OffsetFlags ==> IsNumeric(argv[i + 1])
    ensures e.None? ==> argv[i] !in HelpFlags
    ensures e != Some(EmptyToken)
    ensures argv[i] in UserFlags + PlaylistFlags + LimitFlags + OffsetFlags && i + 1 == |argv|
      ==> e == Some(MissingArgument)
    ensures argv[i] in OffsetFlags && i + 1 < |argv| ==> (e.None? <==> IsNumeric(argv[i + 1]))
    ensures argv[i] in OffsetFlags && i + 1 < |argv| && e.Some? ==> e == Some(OffsetNotInteger)
    ensures argv[i] in HelpFlags ==> e == Some(HelpRequested)
    ensures argv[i] !in LimitFlags + OffsetFlags + HelpFlags &&
            !(argv[i] in UserFlags + PlaylistFlags && i + 1 == |argv|)
      ==> e.None?
  {
    var arg := argv[i];
    if arg in UserFlags || arg in PlaylistFlags then
      if i + 1 < |argv| then None else Some(MissingArgument)
    else if arg in LimitFlags then
      if i + 1 == |argv| then Some(MissingArgument)
      else if argv[i + 1] == "inf" then None
      else if !IsNumeric(argv[i + 1]) then Some(LimitNotInteger)
      else if DigitsValue(argv[i + 1]) < 1 then Some(LimitBelowOne)
      else None
    else if arg in OffsetFlags then
      if i + 1 == |argv| then Some(MissingArgument)
      else if !IsNumeric(argv[i + 1]) then Some(OffsetNotInteger)
      else None
    else if arg in HelpFlags then Some(HelpRequested)
    else None
  }

  /** The checks of `-l`: `inf` and any positive count pass, a value that is
      not all digits is not an integer, and a count of zeros is below one. */
  lemma LimitCheck(argv: seq<string>, i: nat)
    requires i + 1 < |argv| && argv[i] in LimitFlags
    ensures Check(argv, i).None? <==> (argv[i + 1] == "inf" || (IsNumeric(argv[i + 1]) && !AllZeros(argv[i + 1])))
    ensures Check(argv, i) == Some(LimitNotInteger) <==> argv[i + 1] != "inf" && !IsNumeric(argv[i + 1])
    ensures Check(argv, i) == Some(LimitBelowOne) <==> IsNumeric(argv[i + 1]) && AllZeros(argv[i + 1])
  {
    var v := argv[i + 1];
    if IsNumeric(v) {
      DigitsValueZero(v);
    }
  }

  /** The effect of a token that passed its check on the options. */
  function Apply(o: Options, argv: seq<string>, i: nat): Options
    requires i < |argv| && Check(argv, i).None?
  {
    var arg := argv[i];
    if arg in UserFlags then o.(username := Some(argv[i + 1]))
    else if arg in PlaylistFlags then o.(playlistName := Some(argv[i + 1]))
    else if arg in LimitFlags then o.(queueLimit := Some(LimitOf(argv[i + 1])))
    else if arg == "-ndar" then o.(noDoubleArtist := true)
    else if arg == "-ndal" then o.(noDoubleAlbum := true)
    else if arg == "-ns" then o.(noShuffle := true)
    else if arg in OffsetFlags then o.(offset := DigitsValue(argv[i + 1]))
    else if arg == "-debug" then o.(debug := true)
    else o
  }

  /** The scan of `parse_args` from token `i` on: every token, option values
      included, is looked at in turn, and the first failing one ends it. */
  function Scan(o: Options, argv: seq<string>, i: nat): (r: Result<Options, ParseError>)
    requires i <= |argv|
    ensures r.Failure? ==> r.error != EmptyToken
    ensures r.Failure? ==> exists k :: i <= k < |argv| && Check(argv, k) == Some(r.error)
    ensures r.Success? ==> forall k :: i <= k < |argv| ==> Check(argv, k).None?
    decreases |argv| - i
  {
    if i == |argv| then Success(o)
    else match Check(argv, i)
      case Some(e) => Failure(e)
      case None => Scan(Apply(o, argv, i), argv, i + 1)
  }

  /** `parse_args` on tokens already grouped. */
  function ParseTokens(argv: seq<string>): Result<Options, ParseError>
  {
    Scan(Defaults, argv, 0)
  }

  /** `parse_args`: group the quoted tokens, then scan them. */
  function ParseArgs(argv: seq<string>): (r: Result<Options, ParseError>)
    ensures r == Failure(EmptyToken) <==> !NonEmptyTokens(argv)
  {
    if !NonEmptyTokens(argv) then Failure(EmptyToken)
    else ParseTokens(GroupQuotes(argv))
  }

  // ---------------------------------------------------- what the scan computes

  /** The index of the last of the first `n` tokens that is in `flags`. */
  function LastAt(argv: seq<string>, flags: set<string>, n: nat): (r: Option<nat>)
    requires n <= |argv|
    ensures r.None? ==> forall k :: 0 <= k < n ==> argv[k] !in flags
    ensures r.Some? ==> (r.value < n && argv[r.value] in flags
      && forall k :: r.value < k < n ==> argv[k] !in flags)
  {
    if n == 0 then None
    else if argv[n - 1] in flags then Some(n - 1)
    else LastAt(argv, flags, n - 1)
  }

  /** The first failing token from `i` on. */
  function FirstFailure(argv: seq<string>, i: nat): (r: Option<nat>)
    requires i <= |argv|
    ensures r.None? ==> forall k :: i <= k < |argv| ==> Check(argv, k).None?
    ensures r.Some? ==> (i <= r.value < |argv| && Check(argv, r.value).Some?
      && forall k :: i <= k < r.value ==> Check(argv, k).None?)
    decreases |argv| - i
  {
    if i == |argv| then None
    else if Check(argv, i).Some? then Some(i)
    else FirstFailure(argv, i + 1)
  }

  /** A string option holds the value after the last of the first `n` tokens
      naming it, and nothing if none does. */
  ghost predicate LastValueWins(field: Option<string>, argv: seq<string>, flags: set<string>, n: nat)
    requires n <= |argv|
  {
    match LastAt(argv, flags, n)
    case None => field.None?
    case Some(k) => k + 1 < |argv| && field == Some(argv[k + 1])
  }

  /** The options reflect the first `n` tokens: for every option the last
      occurrence of its flag wins, and a switch is on once its flag occurs. */
  ghost predicate Reflects(o: Options, argv: seq<string>, n: nat)
    requires n <= |argv|
  {
    && LastValueWins(o.username, argv, UserFlags, n)
    && LastValueWins(o.playlistName, argv, PlaylistFlags, n)
    && LimitReflects(o.queueLimit, argv, n)
    && OffsetReflects(o.offset, argv, n)
    && SwitchesReflect(o, argv, n)
  }

  /** The queue limit is read from the value after the last `-l`. */
  ghost predicate LimitReflects(limit: Option<Limit>, argv: seq<string>, n: nat)
    requires n <= |argv|
  {
    match LastAt(argv, LimitFlags, n)
    case None => limit.None?
    case Some(k) => k + 1 < |argv| && LimitText(argv[k + 1]) && limit == Some(LimitOf(argv[k + 1]))
  }

  /** The offset is read from the value after the last `-o`, and is zero
      without one. */
  ghost predicate OffsetReflects(offset: nat, argv: seq<string>, n: nat)
    requires n <= |argv|
  {
    match LastAt(argv, OffsetFlags, n)
    case None => offset == 0
    case Some(k) => k + 1 < |argv| && IsNumeric(argv[k + 1]) && offset == DigitsValue(argv[k + 1])
  }

  /** Each switch is on exactly when its flag occurs. */
  ghost predicate SwitchesReflect(o: Options, argv: seq<string>, n: nat)
    requires n <= |argv|
  {
    && (o.noDoubleArtist <==> LastAt(argv, {"-ndar"}, n).Some?)
    && (o.noDoubleAlbum <==> LastAt(argv, {"-ndal"}, n).Some?)
    && (o.noShuffle <==> LastAt(argv, {"-ns"}, n).Some?)
    && (o.debug <==> LastAt(argv, {"-debug"}, n).Some?)
  }

  /** A token that passes its check keeps the options in step with the
      tokens read so far. */
  lemma ApplyReflects(o: Options, argv: seq<string>, i: nat)
    requires i < |argv| && Check(argv, i).None?
    requires Reflects(o, argv, i)
    ensures Reflects(Apply(o, argv, i), argv, i + 1)
  {
    var p := Apply(o, argv, i);
    ApplyFields(o, argv, i);
    ValueStep(o.username, p.username, argv, UserFlags, i);
    ValueStep(o.playlistName, p.playlistName, argv, PlaylistFlags, i);
    LimitStep(o.queueLimit, p.queueLimit, argv, i);
    OffsetStep(o.offset, p.offset, argv, i);
    SwitchesStep(o, p, argv, i);
  }

  /** The switches after token `i` reflect one more token when each is
      turned on by its own flag only. */
  lemma SwitchesStep(o: Options, p: Options, argv: seq<string>, i: nat)
    requires i < |argv| && SwitchesReflect(o, argv, i)
    requires p.noDoubleArtist == (o.noDoubleArtist || argv[i] == "-ndar")
    requires p.noDoubleAlbum == (o.noDoubleAlbum || argv[i] == "-ndal")
    requires p.noShuffle == (o.noShuffle || argv[i] == "-ns")
    requires p.debug == (o.debug || argv[i] == "-debug")
    ensures SwitchesReflect(p, argv, i + 1)
  {
    SwitchStep(o.noDoubleArtist, p.noDoubleArtist, argv, "-ndar", i);
    SwitchStep(o.noDoubleAlbum, p.noDoubleAlbum, argv, "-ndal", i);
    SwitchStep(o.noShuffle, p.noShuffle, argv, "-ns", i);
    SwitchStep(o.debug, p.debug, argv, "-debug", i);
  }

  /** A string option after token `i` is the value after token `i` if that
      is its flag, and what it was before otherwise. */
  lemma ValueStep(before: Option<string>, after: Option<string>, argv: seq<string>, flags: set<string>, i: nat)
    requires i < |argv| && LastValueWins(before, argv, flags, i)
    requires if argv[i] in flags then i + 1 < |argv| && after == Some(argv[i + 1]) else after == before
    ensures LastValueWins(after, argv, flags, i + 1)
  {
  }

  /** The queue limit after token `i` is read from the value after it if
      it is `-l`, and is unchanged otherwise. */
  lemma LimitStep(before: Option<Limit>, after: Option<Limit>, argv: seq<string>, i: nat)
    requires i < |argv| && LimitReflects(before, argv, i)
    requires if argv[i] in LimitFlags then i + 1 < |argv| && LimitText(argv[i + 1])
      && after == Some(LimitOf(argv[i + 1])) else after == before
    ensures LimitReflects(after, argv, i + 1)
  {
  }

  /** The offset after token `i` is read from the value after it if it is
      `-o`, and is unchanged otherwise. */
  lemma OffsetStep(before: nat, after: nat, argv: seq<string>, i: nat)
    requires i < |argv| && OffsetReflects(before, argv, i)
    requires if argv[i] in OffsetFlags then i + 1 < |argv| && IsNumeric(argv[i + 1])
      && after == DigitsValue(argv[i + 1]) else after == before
    ensures OffsetReflects(after, argv, i + 1)
  {
  }

  /** A switch is on after token `i` exactly when it was on before or token
      `i` is its flag. */
  lemma SwitchStep(before: bool, after: bool, argv: seq<string>, flag: string, i: nat)
    requires i < |argv|
    requires before <==> LastAt(argv, {flag}, i).Some?
    requires after == (before || argv[i] == flag)
    ensures after <==> LastAt(argv, {flag}, i + 1).Some?
  {
  }

  /** Each option `Apply` touches is set by its own flag only. */
  lemma ApplyFields(o: Options, argv: seq<string>, i: nat)
    requires i < |argv| && Check(argv, i).None?
    ensures if argv[i] in UserFlags then i + 1 < |argv| && Apply(o, argv, i).username == Some(argv[i + 1])
      else Apply(o, argv, i).username == o.username
    ensures if argv[i] in PlaylistFlags then i + 1 < |argv| && Apply(o, argv, i).playlistName == Some(argv[i + 1])
      else Apply(o, argv, i).playlistName == o.playlistName
    ensures if argv[i] in LimitFlags then i + 1 < |argv| && LimitText(argv[i + 1])
      && Apply(o, argv, i).queueLimit == Some(LimitOf(argv[i + 1])) else Apply(o, argv, i).queueLimit == o.queueLimit
    ensures if argv[i] in OffsetFlags then i + 1 < |argv| && IsNumeric(argv[i + 1])
      && Apply(o, argv, i).offset == DigitsValue(argv[i + 1]) else Apply(o, argv, i).offset == o.offset
    ensures Apply(o, argv, i).noDoubleArtist == (o.noDoubleArtist || argv[i] == "-ndar")
    ensures Apply(o, argv, i).noDoubleAlbum == (o.noDoubleAlbum || argv[i] == "-ndal")
    ensures Apply(o, argv, i).noShuffle == (o.noShuffle || argv[i] == "-ns")
    ensures Apply(o, argv, i).debug == (o.debug || argv[i] == "-debug")
  {
  }

  /** The scan fails exactly when some token fails, with the error of the
      first one; otherwise it returns the options the tokens describe. */
  lemma {:induction false} ScanOutcome(o: Options, argv: seq<string>, i: nat)
    requires i <= |argv| && Reflects(o, argv, i)
    ensures Scan(o, argv, i).Failure? <==> FirstFailure(argv, i).Some?
    ensures Scan(o, argv, i).Failure? ==> Check(argv, FirstFailure(argv, i).value) == Some(Scan(o, argv, i).error)
    ensures Scan(o, argv, i).Success? ==> Reflects(Scan(o, argv, i).value, argv, |argv|)
    decreases |argv| - i
  {
    if i == |argv| {
    } else if Check(argv, i).Some? {
      assert FirstFailure(argv, i) == Some(i);
    } else {
      var p := Apply(o, argv, i);
      ApplyReflects(o, argv, i);
      ScanOutcome(p, argv, i + 1);
      assert Scan(o, argv, i) == Scan(p, argv, i + 1);
      assert FirstFailure(argv, i) == FirstFailure(argv, i + 1);
    }
  }

  /** `parse_args` on grouped tokens: it stops with the error of the first
      failing token if there is one, and otherwise returns options in which
      the last occurrence of each option wins; with no recognised flag these
      are the defaults. */
  lemma ParseTokensOutcome(argv: seq<string>)
    ensures ParseTokens(argv).Failure? <==> exists k :: 0 <= k < |argv| && Check(argv, k).Some?
    ensures ParseTokens(argv).Failure? ==> exists k :: (0 <= k < |argv|
      && Check(argv, k) == Some(ParseTokens(argv).error)
      && forall j :: 0 <= j < k ==> Check(argv, j).None?)
    ensures ParseTokens(argv).Success? ==> Reflects(ParseTokens(argv).value, argv, |argv|)
  {
    ScanOutcome(Defaults, argv, 0);
    if ParseTokens(argv).Failure? {
      var k := FirstFailure(argv, 0).value;
      assert Check(argv, k) == Some(ParseTokens(argv).error);
    }
  }

  /** `parse_args` on non-empty tokens: it fails exactly when a grouped
      argument fails its check, and otherwise returns the options the
      grouped arguments describe. */
  lemma ParseArgsOutcome(argv: seq<string>)
    requires NonEmptyTokens(argv)
    ensures ParseArgs(argv).Failure? <==> exists k :: 0 <= k < |GroupQuotes(argv)| && Check(GroupQuotes(argv), k).Some?
    ensures ParseArgs(argv).Success? ==> Reflects(ParseArgs(argv).value, GroupQuotes(argv), |GroupQuotes(argv)|)
  {
    ParseTokensOutcome(GroupQuotes(argv));
  }

  /** Tokens that are no flag leave every option at its default. */
  lemma NoFlagsGiveDefaults(argv: seq<string>)
    requires forall k :: 0 <= k < |argv| ==> argv[k] !in Flags
    ensures ParseTokens(argv) == Success(Defaults)
  {
    ParseTokensOutcome(argv);
    assert forall k :: 0 <= k < |argv| ==> Check(argv, k).None?;
    var o := ParseTokens(argv).value;
    assert o.username == None && o.playlistName == None && o.queueLimit == None;
    assert !o.noDoubleArtist && !o.noDoubleAlbum && !o.noShuffle && !o.debug && o.offset == 0;
  }

  /** `-limit` is not the long form of `-l`: it is ignored, and so is the
      count after it. */
  lemma DashLimitIgnored()
    ensures ParseTokens(["main.py", "-limit", "5"]) == Success(Defaults)
  {
    NoFlagsGiveDefaults(["main.py", "-limit", "5"]);
  }

  /** The long form of `-l` is `limit`, without a dash. */
  lemma LongLimitForm()
    ensures ParseTokens(["main.py", "limit", "inf"]) == Success(Defaults.(queueLimit := Some(Unlimited)))
  {
  }

  /** Option values are scanned as flags too. */
  lemma ValueScannedAsFlag()
    ensures ParseTokens(["main.py", "-u", "-ndar"])
      == Success(Defaults.(username := Some("-ndar"), noDoubleArtist := true))
  {
  }

  /** A limit of zero is refused. */
  lemma ZeroLimitRefused()
    ensures ParseTokens(["main.py", "-l", "0"]) == Failure(LimitBelowOne)
  {
  }

  /** An option at the end of the line without its value is refused. */
  lemma TrailingOptionRefused()
    ensures ParseTokens(["main.py", "-o"]) == Failure(MissingArgument)
  {
  }

  /** No flag contains a space, so a multi-word argument is never read as
      one. */
  lemma SpacedNotFlag(x: string, k: nat)
    requires k < |x| && x[k] == ' '
    ensures x !in Flags
  {
  }

  /** A quoted playlist name reaches the options in one piece. */
  lemma QuotedPlaylistName(prog: string, w1: string, w2: string, w3: string)
    requires prog != [] && Unquoted(prog) && prog !in Flags
    requires w1 != [] && w2 != [] && w3 != []
    requires Unquoted(w1) && Unquoted(w2) && Unquoted(w3)
    ensures ParseArgs([prog, "-p", "\"" + w1, w2, w3 + "\""])
      == Success(Defaults.(playlistName := Some(w1 + " " + w2 + " " + w3)))
  {
    var name := w1 + " " + w2 + " " + w3;
    SpacedNotFlag(name, |w1|);
    GroupsQuotedName(prog, "-p", w1, w2, w3);
    var grouped := [prog, "-p", name];
    assert Check(grouped, 0).None? && Apply(Defaults, grouped, 0) == Defaults;
    var o := Defaults.(playlistName := Some(name));
    assert Check(grouped, 1).None? && Apply(Defaults, grouped, 1) == o;
    assert Check(grouped, 2).None? && Apply(o, grouped, 2) == o;
    assert Scan(o, grouped, 2) == Success(o);
    assert Scan(Defaults, grouped, 1) == Scan(o, grouped, 2);
    assert ParseTokens(grouped) == Scan(Defaults, grouped, 1);
  }
}
