/**
  How SQLite's tokenizer divides text: where quoted text, quoted names and comments
  begin and end, which semicolons end a statement, and which commas and closing
  parentheses end a definition of a `CREATE TABLE`.
 */
module SqlLexer {
  /** Between tokens or in one; `Dash` and `Slash` are behind a character that may begin a comment. */
  datatype Mode = Plain | Dash | Slash | Single | Double | Tick | Bracket | Line | Block | Star

  /** Neither in quotes nor in a comment. */
  predicate Active(m: Mode) { m.Plain? || m.Dash? || m.Slash? }

  function NextMode(m: Mode, c: char): Mode {
    match m
    case Single => if c == '\'' then Plain else Single
    case Double => if c == '"' then Plain else Double
    case Tick => if c == '`' then Plain else Tick
    case Bracket => if c == ']' then Plain else Bracket
    case Line => if c == '\n' then Plain else Line
    case Block => if c == '*' then Star else Block
    case Star => if c == '/' then Plain else if c == '*' then Star else Block
    case _ =>
      if c == '\'' then Single else if c == '"' then Double else if c == '`' then Tick else if c == '[' then Bracket
      else if c == '-' then (if m.Dash? then Line else Dash)
      else if c == '*' && m.Slash? then Block
      else if c == '/' then Slash else Plain
  }

  /** The mode behind a text. */
  function Lex(m: Mode, s: string): Mode {
    if s == "" then m else NextMode(Lex(m, s[..|s| - 1]), s[|s| - 1])
  }

  datatype Level = Statements | Definitions

  /** A reader in the middle of a text: its mode, the open parentheses, the pieces completed and the one begun. */
  datatype Reader = Reader(mode: Mode, depth: nat, done: seq<string>, open: string)

  const START: Reader := Reader(Plain, 0, [], "")

  /** The character completes the piece begun. */
  predicate Ends(l: Level, r: Reader, c: char) {
    Active(r.mode) && match l case Statements => c == ';' case Definitions => r.depth == 0 && (c == ',' || c == ')')
  }

  function Deepened(l: Level, r: Reader, c: char): nat {
    if l.Statements? || !Active(r.mode) then r.depth
    else if c == '(' then r.depth + 1
    else if c == ')' && r.depth > 0 then r.depth - 1 else r.depth
  }

  function Step(l: Level, r: Reader, c: char): Reader {
    if Ends(l, r, c) then Reader(Plain, 0, r.done + [r.open], "")
    else Reader(NextMode(r.mode, c), Deepened(l, r, c), r.done, r.open + [c])
  }

  function Read(l: Level, r: Reader, s: string): Reader {
    if s == "" then r else Step(l, Read(l, r, s[..|s| - 1]), s[|s| - 1])
  }

  /** Read from its beginning the text ends outside quotes, comments and parentheses, and completes no piece. */
  predicate Closed(l: Level, p: string) {
    var r := Read(l, START, p);
    Active(r.mode) && r.depth == 0 && r.done == []
  }

  /** Pieces, each with the character that completes it. */
  function Joined(ps: seq<string>, ends: string): string
    requires |ends| == |ps|
  {
    if ps == [] then "" else
    var n := |ps| - 1;
    Joined(ps[..n], ends[..n]) + ps[n] + [ends[n]]
  }

  predicate IsEnd(l: Level, c: char) { match l case Statements => c == ';' case Definitions => c == ',' || c == ')' }

  // ----- reading in parts

  lemma {:induction false} ReadTwo(l: Level, r: Reader, s: string, t: string)
    ensures Read(l, r, s + t) == Read(l, Read(l, r, s), t)
  {
    hide Step;
    if t == "" {
      assert s + t == s;
    } else {
      var n := |t| - 1;
      ReadTwo(l, r, s, t[..n]);
      assert (s + t)[..|s + t| - 1] == s + t[..n];
    }
  }

  lemma ReadChar(l: Level, r: Reader, c: char)
    ensures Read(l, r, [c]) == Step(l, r, c)
  {
    assert [c][..0] == "";
    assert Read(l, r, "") == r;
  }

  lemma ReadEnd(l: Level, r: Reader, s: string, c: char)
    ensures Read(l, r, s + [c]) == Step(l, Read(l, r, s), c)
  {
    ReadTwo(l, r, s, [c]);
    ReadChar(l, Read(l, r, s), c);
  }

  /** The same reader with more behind it: pieces completed before, and the beginning of the open piece. */
  function Behind(done: seq<string>, open: string, r: Reader): Reader {
    if r.done == [] then r.(done := done, open := open + r.open)
    else r.(done := done + [open + r.done[0]] + r.done[1..])
  }

  /** What was read before changes nothing else. */
  lemma {:induction false} ReadBehind(l: Level, m: Mode, done: seq<string>, open: string, s: string)
    ensures Read(l, Reader(m, 0, done, open), s) == Behind(done, open, Read(l, Reader(m, 0, [], ""), s))
  {
    if s == "" {
      assert open + "" == open;
    } else {
      var n := |s| - 1;
      ReadBehind(l, m, done, open, s[..n]);
      var r := Read(l, Reader(m, 0, [], ""), s[..n]);
      StepBehind(l, done, open, r, s[n]);
    }
  }

  lemma StepBehind(l: Level, done: seq<string>, open: string, r: Reader, c: char)
    ensures Step(l, Behind(done, open, r), c) == Behind(done, open, Step(l, r, c))
  {
    hide NextMode;
    var b, q := Behind(done, open, r), Step(l, r, c);
    if Ends(l, r, c) {
      if r.done == [] {
        assert q.done == [r.open] && q.done[1..] == [];
      } else {
        assert q.done[1..] == r.done[1..] + [r.open];
      }
    } else {
      assert open + (r.open + [c]) == (open + r.open) + [c];
    }
  }

  /** While nothing is completed the mode is that of the text. */
  lemma {:induction false} ModeIsLex(l: Level, s: string)
    requires Read(l, START, s).done == []
    ensures Read(l, START, s).mode == Lex(Plain, s) && Read(l, START, s).open == s
  {
    hide NextMode;
    if s != "" { ModeIsLex(l, s[..|s| - 1]); }
  }

  lemma {:induction false} DepthZero(r: Reader, s: string)
    requires r.depth == 0
    ensures Read(Statements, r, s).depth == 0
  {
    hide NextMode;
    if s != "" { DepthZero(r, s[..|s| - 1]); }
  }

  /** Completed pieces stay, and the next one begins as the open one. */
  lemma {:induction false} DoneGrows(l: Level, r: Reader, s: string)
    ensures var q := Read(l, r, s);
            && r.done <= q.done
            && (if |q.done| > |r.done| then r.open <= q.done[|r.done|] else r.open <= q.open)
  {
    hide NextMode;
    if s != "" { DoneGrows(l, r, s[..|s| - 1]); }
  }

  /** A text that ends in plain mode outside parentheses, followed by another. */
  lemma CatClosed(l: Level, a: string, b: string)
    requires Lex(Plain, a) == Plain && (l.Definitions? ==> Closed(l, a))
    ensures Closed(l, a + b) <==> Closed(l, a) && Closed(l, b)
  {
    hide NextMode;
    ReadTwo(l, START, a, b);
    var r := Read(l, START, a);
    if l.Statements? { DepthZero(START, a); }
    DoneGrows(l, r, b);
    if r.done == [] {
      ModeIsLex(l, a);
      ReadBehind(l, Plain, [], a, b);
    }
  }

  lemma {:induction false} LexTwo(m: Mode, s: string, t: string)
    ensures Lex(m, s + t) == Lex(Lex(m, s), t)
  {
    hide NextMode;
    if t == "" {
      assert s + t == s;
    } else {
      var n := |t| - 1;
      LexTwo(m, s, t[..n]);
      assert (s + t)[..|s + t| - 1] == s + t[..n];
    }
  }

  /** A text that is closed at both levels and ends in plain mode. */
  predicate Clean(p: string) { Lex(Plain, p) == Plain && Closed(Statements, p) && Closed(Definitions, p) }

  lemma CleanTwo(a: string, b: string)
    requires Clean(a)
    ensures Clean(a + b) <==> Clean(b)
    ensures forall l :: Closed(l, a + b) <==> Closed(l, b)
  {
    hide Closed, Lex;
    LexTwo(Plain, a, b);
    CatClosed(Statements, a, b);
    CatClosed(Definitions, a, b);
    forall l ensures Closed(l, a + b) <==> Closed(l, b) { match l case Statements => case Definitions => }
  }

  // ----- texts without characters of meaning

  /** The character means nothing to the tokenizer at a level, outside quotes or in them. */
  predicate Quiet(l: Level, c: char) {
    && c != '\'' && c != '"' && c != '`' && c != '[' && c != ']' && c != '-' && c != '/' && c != '*' && c != '\n'
    && match l case Statements => c != ';' case Definitions => c != ',' && c != '(' && c != ')'
  }

  ghost predicate AllQuiet(l: Level, s: string) { forall i | 0 <= i < |s| :: Quiet(l, s[i]) }

  lemma {:induction false} QuietReads(l: Level, r: Reader, s: string)
    requires AllQuiet(l, s)
    ensures var q := Read(l, r, s);
            && q.done == r.done && q.depth == r.depth && (Active(q.mode) <==> Active(r.mode))
            && (r.mode.Plain? ==> q.mode.Plain?)
  {
    if s != "" {
      var n := |s| - 1;
      QuietReads(l, r, s[..n]);
      assert Quiet(l, s[n]);
    }
  }

  lemma QuietClosed(l: Level, s: string)
    requires AllQuiet(l, s)
    ensures Closed(l, s) && Lex(Plain, s) == Plain
  {
    QuietReads(l, START, s);
    ModeIsLex(l, s);
  }

  /** A quiet text behind a text leaves it as closed as it was. */
  lemma QuietBehind(l: Level, d: string, tail: string)
    requires AllQuiet(l, tail)
    ensures Closed(l, d + tail) <==> Closed(l, d)
  {
    ReadTwo(l, START, d, tail);
    QuietReads(l, Read(l, START, d), tail);
  }

  // ----- quoting

  /** Quoting as `Ident` and `Lit` do it: quotes inside are doubled. */
  function Doubled(q: char, s: string): string {
    if s == "" then "" else (if s[0] == q then [q, q] else [s[0]]) + Doubled(q, s[1..])
  }

  function Quoted(q: char, s: string): string { [q] + Doubled(q, s) + [q] }

  /** In quotes. */
  predicate InQuotes(q: char, m: Mode) { (q == '\'' && m == Single) || (q == '"' && m == Double) }

  /** One character of a quoted text. */
  lemma HeadReads(l: Level, q: char, c: char, r: Reader)
    requires InQuotes(q, r.mode)
    ensures var head := if c == q then [q, q] else [c]; Read(l, r, head) == r.(open := r.open + head)
  {
    if c == q {
      assert [q, q] == [q] + [q];
      ReadEnd(l, r, [q], q);
      ReadChar(l, r, q);
      assert r.open + [q] + [q] == r.open + [q, q];
    } else {
      ReadChar(l, r, c);
    }
  }

  /** Doubled text in quotes completes nothing and stays in them. */
  lemma {:induction false} DoubledReads(l: Level, q: char, s: string, r: Reader)
    requires InQuotes(q, r.mode)
    ensures Read(l, r, Doubled(q, s)) == r.(open := r.open + Doubled(q, s))
  {
    hide Step, NextMode, Read;
    if s == "" {
      assert Read(l, r, "") == r by { ReadNothing(l, r); }
      assert r.open + "" == r.open;
    } else {
      var c, rest := s[0], Doubled(q, s[1..]);
      var head := if c == q then [q, q] else [c];
      HeadReads(l, q, c, r);
      ReadTwo(l, r, head, rest);
      DoubledReads(l, q, s[1..], r.(open := r.open + head));
      assert r.open + head + rest == r.open + Doubled(q, s);
    }
  }

  /** A quoted text, whatever it holds, is read as one token. */
  lemma QuotedReads(l: Level, q: char, s: string, r: Reader)
    requires (q == '\'' || q == '"') && r.mode == Plain
    ensures Read(l, r, Quoted(q, s)) == r.(open := r.open + Quoted(q, s))
  {
    hide Read;
    var inside := Step(l, r, q);
    assert InQuotes(q, inside.mode);
    ReadChar(l, r, q);
    ReadTwo(l, r, [q], Doubled(q, s));
    DoubledReads(l, q, s, inside);
    ReadEnd(l, r, [q] + Doubled(q, s), q);
    hide Doubled;
    var last := inside.(open := inside.open + Doubled(q, s));
    assert Step(l, last, q) == r.(open := r.open + [q] + Doubled(q, s) + [q]);
    assert r.open + [q] + Doubled(q, s) + [q] == r.open + Quoted(q, s);
  }

  lemma QuotedClean(q: char, s: string)
    requires q == '\'' || q == '"'
    ensures Clean(Quoted(q, s))
  {
    QuotedReads(Statements, q, s, START);
    QuotedReads(Definitions, q, s, START);
    ModeIsLex(Statements, Quoted(q, s));
  }

  lemma QuietClean(s: string)
    requires AllQuiet(Statements, s) && AllQuiet(Definitions, s)
    ensures Clean(s)
  {
    QuietClosed(Statements, s);
    QuietClosed(Definitions, s);
  }

  lemma ParenthesisCloses(l: Level, s: string)
    ensures Closed(l, "(" + Quoted('"', s) + ")") && Lex(Plain, "(" + Quoted('"', s) + ")") == Plain
  {
    hide Quoted, Read;
    var p := "(" + Quoted('"', s);
    ReadChar(l, START, '(');
    ReadTwo(l, START, "(", Quoted('"', s));
    QuotedReads(l, '"', s, Step(l, START, '('));
    ReadEnd(l, START, p, ')');
    ModeIsLex(l, p + ")");
  }

  /** A quoted name in parentheses. */
  lemma ParenthesisClean(s: string)
    ensures Clean("(" + Quoted('"', s) + ")")
  {
    ParenthesisCloses(Statements, s);
    ParenthesisCloses(Definitions, s);
  }

  /** The text of a quoted name behind its opening quote, and what follows it. */
  function Unquoted(q: char, s: string): (string, string) {
    if s == "" then ("", "")
    else if s[0] != q then var (name, rest) := Unquoted(q, s[1..]); ([s[0]] + name, rest)
    else if |s| > 1 && s[1] == q then var (name, rest) := Unquoted(q, s[2..]); ([q] + name, rest)
    else ("", s[1..])
  }

  /** Unquoting undoes quoting, for every text. */
  lemma {:induction false} UnquotedQuoted(q: char, s: string, rest: string)
    requires rest == "" || rest[0] != q
    ensures Unquoted(q, Doubled(q, s) + [q] + rest) == (s, rest)
  {
    var t := Doubled(q, s) + [q] + rest;
    if s == "" {
      assert t == [q] + rest;
      assert t[1..] == rest;
    } else {
      var u := Doubled(q, s[1..]) + [q] + rest;
      UnquotedQuoted(q, s[1..], rest);
      if s[0] == q {
        assert t == [q, q] + u;
        assert t[2..] == u;
      } else {
        assert t == [s[0]] + u;
        assert t[1..] == u;
      }
      assert [s[0]] + s[1..] == s;
    }
  }

  // ----- other tokens, and parentheses

  /** While nothing closes it, a text in quotes, brackets or a comment completes nothing and stays in them. */
  lemma {:induction false} StaysInside(l: Level, r: Reader, s: string)
    requires r.mode == Tick || r.mode == Bracket || r.mode == Line || r.mode == Block
    requires forall i | 0 <= i < |s| :: NextMode(r.mode, s[i]) == r.mode
    ensures Read(l, r, s) == r.(open := r.open + s)
  {
    if s == "" {
      assert r.open + "" == r.open;
    } else {
      StaysInside(l, r, s[..|s| - 1]);
      assert r.open + s == r.open + s[..|s| - 1] + [s[|s| - 1]];
    }
  }

  /** What opens a token, what it holds, and what closes it. */
  lemma Enclosed(l: Level, r: Reader, a: string, s: string, b: string, m: Mode)
    requires m == Tick || m == Bracket || m == Line || m == Block
    requires Read(l, r, a) == r.(mode := m, open := r.open + a)
    requires forall i | 0 <= i < |s| :: NextMode(m, s[i]) == m
    requires var inside := r.(mode := m, open := r.open + a + s); Read(l, inside, b) == r.(open := inside.open + b)
    ensures Read(l, r, a + s + b) == r.(open := r.open + (a + s + b))
  {
    hide Read, NextMode;
    ReadTwo(l, r, a + s, b);
    ReadTwo(l, r, a, s);
    StaysInside(l, r.(mode := m, open := r.open + a), s);
    assert r.open + a + s + b == r.open + (a + s + b);
  }

  /** A name in backticks is one token. */
  lemma BackticksRead(l: Level, s: string, r: Reader)
    requires r.mode == Plain && '`' !in s
    ensures Read(l, r, "`" + s + "`") == r.(open := r.open + ("`" + s + "`"))
  {
    ReadChar(l, r, '`');
    ReadChar(l, r.(mode := Tick, open := r.open + "`" + s), '`');
    hide Read;
    Enclosed(l, r, "`", s, "`", Tick);
  }

  /** A name in brackets is one token. */
  lemma BracketsRead(l: Level, s: string, r: Reader)
    requires r.mode == Plain && ']' !in s
    ensures Read(l, r, "[" + s + "]") == r.(open := r.open + ("[" + s + "]"))
  {
    ReadChar(l, r, '[');
    ReadChar(l, r.(mode := Bracket, open := r.open + "[" + s), ']');
    hide Read;
    Enclosed(l, r, "[", s, "]", Bracket);
  }

  /** A comment to the end of its line is one token. */
  lemma LineCommentReads(l: Level, s: string, r: Reader)
    requires r.mode == Plain && '\n' !in s
    ensures Read(l, r, "--" + s + "\n") == r.(open := r.open + ("--" + s + "\n"))
  {
    TwoRead(l, r, '-', '-');
    assert r.open + "-" + "-" == r.open + "--";
    ReadChar(l, r.(mode := Line, open := r.open + "--" + s), '\n');
    hide Read;
    Enclosed(l, r, "--", s, "\n", Line);
  }

  /** No star in the text stands before a slash. */
  ghost predicate OpenComment(s: string) { forall k | 0 <= k < |s| - 1 :: !(s[k] == '*' && s[k + 1] == '/') }

  lemma {:induction false} StaysInComment(l: Level, r: Reader, s: string)
    requires r.mode == Block && OpenComment(s)
    ensures Read(l, r, s) == r.(mode := if s != "" && s[|s| - 1] == '*' then Star else Block, open := r.open + s)
  {
    if s == "" {
      assert r.open + "" == r.open;
    } else {
      var n := |s| - 1;
      StaysInComment(l, r, s[..n]);
      if n > 0 { assert !(s[n - 1] == '*' && s[n - 1 + 1] == '/'); }
      assert r.open + s == r.open + s[..n] + [s[n]];
    }
  }

  /** A comment between its slashes and stars, which may hold others, is one token. */
  lemma BlockCommentReads(l: Level, s: string, r: Reader)
    requires r.mode == Plain && OpenComment(s)
    ensures Read(l, r, "/*" + s + "*/") == r.(open := r.open + ("/*" + s + "*/"))
  {
    hide Read, OpenComment;
    TwoRead(l, r, '/', '*');
    assert r.open + "/" + "*" == r.open + "/*";
    var inside := r.(mode := Block, open := r.open + "/*");
    ReadTwo(l, r, "/*" + s, "*/");
    ReadTwo(l, r, "/*", s);
    StaysInComment(l, inside, s);
    var last := Read(l, inside, s);
    TwoRead(l, last, '*', '/');
    assert r.open + "/*" + s + "*" + "/" == r.open + ("/*" + s + "*/");
  }

  lemma TwoRead(l: Level, r: Reader, c: char, d: char)
    ensures Read(l, r, [c, d]) == Step(l, Step(l, r, c), d)
  {
    hide Step;
    ReadChar(l, r, c);
    ReadEnd(l, r, [c], d);
    assert [c] + [d] == [c, d];
  }

  /** A text that completes no definition completes none in parentheses either, and leaves their depth alone. */
  lemma {:induction false} DeepReads(r: Reader, s: string)
    requires r.mode == Plain && r.depth > 0 && Read(Definitions, START, s).done == []
    ensures var q := Read(Definitions, START, s);
            Read(Definitions, r, s) == Reader(q.mode, r.depth + q.depth, r.done, r.open + s)
  {
    if s == "" {
      assert r.open + "" == r.open;
    } else {
      var n := |s| - 1;
      assert Read(Definitions, START, s[..n]).done == [] by { NoneBefore(s); }
      DeepReads(r, s[..n]);
      hide NextMode;
      assert r.open + s == r.open + s[..n] + [s[n]];
    }
  }

  lemma NoneBefore(s: string)
    requires s != "" && Read(Definitions, START, s).done == []
    ensures Read(Definitions, START, s[..|s| - 1]).done == []
  {
    hide NextMode;
  }

  /** Closed texts with a comma between them, in parentheses, are closed, however deep their own parentheses are. */
  lemma ParenthesesNest(a: string, b: string)
    requires Closed(Definitions, a) && Closed(Definitions, b) && Lex(Plain, a) == Plain
    ensures Closed(Definitions, "(" + a + "," + b + ")")
  {
    hide Read, Lex;
    ModeIsLex(Definitions, a);
    ReadChar(Definitions, START, '(');
    var r1 := Step(Definitions, START, '(');
    ReadTwo(Definitions, START, "(", a);
    DeepReads(r1, a);
    ReadEnd(Definitions, START, "(" + a, ',');
    var r2 := Read(Definitions, START, "(" + a + ",");
    ReadTwo(Definitions, START, "(" + a + ",", b);
    DeepReads(r2, b);
    ReadEnd(Definitions, START, "(" + a + "," + b, ')');
  }

  // ----- dividing a text

  function Sizes(ps: seq<string>): nat {
    if ps == [] then 0 else Sizes(ps[..|ps| - 1]) + |ps[|ps| - 1]| + 1
  }

  lemma {:induction false} JoinedSize(ps: seq<string>, ends: string)
    requires |ends| == |ps|
    ensures |Joined(ps, ends)| == Sizes(ps)
  {
    if ps != [] { JoinedSize(ps[..|ps| - 1], ends[..|ps| - 1]); }
  }

  lemma {:induction false} SizesPrefix(ps: seq<string>, k: nat)
    requires k < |ps|
    ensures Sizes(ps[..k]) + |ps[k]| + 1 <= Sizes(ps)
    decreases |ps|
  {
    var n := |ps| - 1;
    if k < n {
      SizesPrefix(ps[..n], k);
      assert ps[..n][..k] == ps[..k];
    }
  }

  /** Every character is in a piece or ends one. */
  lemma {:induction false} SizesAdd(l: Level, r: Reader, s: string)
    ensures var q := Read(l, r, s); Sizes(q.done) + |q.open| == Sizes(r.done) + |r.open| + |s|
  {
    hide NextMode;
    if s != "" {
      var p := Read(l, r, s[..|s| - 1]);
      SizesAdd(l, r, s[..|s| - 1]);
      assert (p.done + [p.open])[..|p.done|] == p.done;
    }
  }

  /** A reader that has nothing open has just begun a piece. */
  lemma {:induction false} FreshStart(l: Level, s: string)
    ensures var q := Read(l, START, s); q.open == "" ==> q.mode == Plain && q.depth == 0
  {
    if s != "" { FreshStart(l, s[..|s| - 1]); }
  }

  /** The reader stands where the first pieces end. */
  lemma AtBoundary(l: Level, ps: seq<string>, k: nat, s: string, t: string)
    requires k <= |ps| && Read(l, START, s + t).done == ps && |s| == Sizes(ps[..k])
    ensures Read(l, START, s) == Reader(Plain, 0, ps[..k], "")
  {
    hide Step, Sizes;
    var r := Read(l, START, s);
    ReadTwo(l, START, s, t);
    DoneGrows(l, r, t);
    SizesAdd(l, START, s);
    NoSizes();
    var j := |r.done|;
    assert r.done == ps[..j];
    if j < k {
      assert ps[..k][..j] == ps[..j] && ps[..k][j] == ps[j];
      SizesPrefix(ps[..k], j);
      assert false;
    } else if j > k {
      assert ps[..j][..k] == ps[..k];
      SizesPrefix(ps[..j], k);
      assert false;
    }
    FreshStart(l, s);
  }

  lemma NoSizes()
    ensures Sizes([]) == 0
  {
  }

  /** A piece that a reader completes exactly where it ends is closed. */
  lemma PieceClosed(l: Level, done: seq<string>, p: string, c: char)
    requires Read(l, Reader(Plain, 0, done, ""), p + [c]) == Reader(Plain, 0, done + [p], "")
    ensures Closed(l, p)
  {
    hide NextMode;
    var r0 := Reader(Plain, 0, done, "");
    ReadEnd(l, r0, p, c);
    var r := Read(l, r0, p);
    SizesAdd(l, r0, p);
    ReadBehind(l, Plain, done, "", p);
    DoneGrows(l, r0, p);
    if Ends(l, r, c) {
      assert (r.done + [r.open])[..|r.done|] == r.done && (done + [p])[..|done|] == done;
      if l.Statements? { DepthZero(r0, p); }
    } else {
      assert false;
    }
  }

  lemma ClosedReads(l: Level, done: seq<string>, p: string, c: char)
    requires Closed(l, p) && IsEnd(l, c)
    ensures Read(l, Reader(Plain, 0, done, ""), p + [c]) == Reader(Plain, 0, done + [p], "")
  {
    ReadEnd(l, Reader(Plain, 0, done, ""), p, c);
    ReadBehind(l, Plain, done, "", p);
    ModeIsLex(l, p);
    assert "" + p == p;
  }

  lemma {:induction false} JoinedReads(l: Level, ps: seq<string>, ends: string)
    requires |ends| == |ps| && forall i | 0 <= i < |ends| :: IsEnd(l, ends[i])
    requires forall i | 0 <= i < |ps| :: Closed(l, ps[i])
    ensures Read(l, START, Joined(ps, ends)) == Reader(Plain, 0, ps, "")
  {
    hide Step, Closed, Read, IsEnd;
    if ps == [] {
      ReadNothing(l, START);
    } else {
      var n := |ps| - 1;
      JoinedReads(l, ps[..n], ends[..n]);
      var before, p, c := Joined(ps[..n], ends[..n]), ps[n], ends[n];
      assert Joined(ps, ends) == before + (p + [c]);
      ReadTwo(l, START, before, p + [c]);
      ClosedReads(l, ps[..n], p, c);
      assert ps[..n] + [p] == ps;
    }
  }

  lemma {:induction false} JoinedClosed(l: Level, ps: seq<string>, ends: string, i: nat)
    requires |ends| == |ps| && i < |ps|
    requires Read(l, START, Joined(ps, ends)) == Reader(Plain, 0, ps, "")
    ensures Closed(l, ps[i])
    decreases |ps|
  {
    hide Step, Closed, Read, IsEnd;
    var n := |ps| - 1;
    var before, p, c := Joined(ps[..n], ends[..n]), ps[n], ends[n];
    assert Joined(ps, ends) == before + (p + [c]);
    ReadTwo(l, START, before, p + [c]);
    assert ps[..n] + [p] == ps;
    JoinedSize(ps[..n], ends[..n]);
    AtBoundary(l, ps, n, before, p + [c]);
    if i < n { JoinedClosed(l, ps[..n], ends[..n], i); } else { PieceClosed(l, ps[..n], p, c); }
  }

  /** Reading joined pieces gives back these pieces, if and only if each of them is closed. */
  lemma JoinedReadsIff(l: Level, ps: seq<string>, ends: string)
    requires |ends| == |ps| && forall i | 0 <= i < |ends| :: IsEnd(l, ends[i])
    ensures Read(l, START, Joined(ps, ends)) == Reader(Plain, 0, ps, "") <==>
            forall i | 0 <= i < |ps| :: Closed(l, ps[i])
  {
    hide Closed, Read, Joined;
    if forall i | 0 <= i < |ps| :: Closed(l, ps[i]) { JoinedReads(l, ps, ends); }
    if Read(l, START, Joined(ps, ends)) == Reader(Plain, 0, ps, "") {
      forall i | 0 <= i < |ps| ensures Closed(l, ps[i]) { JoinedClosed(l, ps, ends, i); }
    }
  }

  lemma ReadNothing(l: Level, r: Reader)
    ensures Read(l, r, "") == r
  {
  }
}
