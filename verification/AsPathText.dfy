/**
 * AS paths as text: the printer with its growing buffer, the tokeniser and the
 * parser, and what parsing a printed path gives back.
 */
module AsPathText {
  import opened Sequences
  import opened Wrappers
  import opened SortedSets
  import opened Decimal
  import opened AsPath

  // ---------- printing ----------

  function StartChar(k: SegType): char {
    match k
    case Set => '{'
    case ConfedSet => '['
    case ConfedSequence => '('
    case Sequence => ' '
  }

  function EndChar(k: SegType): char {
    match k
    case Set => '}'
    case ConfedSet => ']'
    case ConfedSequence => ')'
    case Sequence => ' '
  }

  function Separator(k: SegType): char {
    if SetKind(k) then ',' else ' '
  }

  /** The numbers of a segment with their separators. */
  function ShowAsns(a: seq<Word>, sep: char): string {
    if a == [] then "" else if |a| == 1 then Show(a[0])
    else Show(a[0]) + [sep] + ShowAsns(a[1..], sep)
  }

  function ShowSeg(s: Segment): string {
    var t := ShowAsns(s.asns, Separator(s.kind));
    if s.kind == Sequence then t else [StartChar(s.kind)] + t + [EndChar(s.kind)]
  }

  function ShowPath(p: Path): string {
    if p == [] then "" else if |p| == 1 then ShowSeg(p[0])
    else ShowSeg(p[0]) + " " + ShowPath(p[1..])
  }

  // ---------- what stands between the numbers ----------

  /** A text without its digits. */
  function NonDigits(s: string): string {
    if s == "" then "" else (if IsDigit(s[0]) then "" else [s[0]]) + NonDigits(s[1..])
  }

  lemma {:induction false} NonDigitsConcat(s: string, t: string)
    ensures NonDigits(s + t) == NonDigits(s) + NonDigits(t)
  {
    if s == "" {
      assert s + t == t;
    } else {
      NonDigitsConcat(s[1..], t);
      assert (s + t)[0] == s[0] && (s + t)[1..] == s[1..] + t;
      AppendAssoc(if IsDigit(s[0]) then "" else [s[0]], NonDigits(s[1..]), NonDigits(t));
    }
  }

  lemma {:induction false} NonDigitsNone(s: string)
    requires AllDigits(s)
    ensures NonDigits(s) == ""
  {
    if s != "" {
      NonDigitsNone(s[1..]);
    }
  }

  lemma {:induction false} BetweenAsns(a: seq<Word>, sep: char)
    requires !IsDigit(sep)
    ensures NonDigits(ShowAsns(a, sep)) == seq(if a == [] then 0 else |a| - 1, _ => sep)
  {
    if a != [] {
      NonDigitsNone(Show(a[0]));
      if |a| > 1 {
        BetweenAsns(a[1..], sep);
        NonDigitsConcat(Show(a[0]) + [sep], ShowAsns(a[1..], sep));
        NonDigitsConcat(Show(a[0]), [sep]);
        assert NonDigits([sep]) == [sep] + NonDigits([]);
      }
    }
  }

  /** Commas in braces or brackets, blanks in parentheses or on their own, one less than there are numbers. */
  function Punctuation(k: SegType, n: nat): string {
    var gaps := if n == 0 then 0 else n - 1;
    match k
    case Set => "{" + seq(gaps, _ => ',') + "}"
    case ConfedSet => "[" + seq(gaps, _ => ',') + "]"
    case ConfedSequence => "(" + seq(gaps, _ => ' ') + ")"
    case Sequence => seq(gaps, _ => ' ')
  }

  lemma SegmentPunctuation(s: Segment)
    ensures NonDigits(ShowSeg(s)) == Punctuation(s.kind, |s.asns|)
  {
    var t := ShowAsns(s.asns, Separator(s.kind));
    var open, close := [StartChar(s.kind)], [EndChar(s.kind)];
    BetweenAsns(s.asns, Separator(s.kind));
    NonDigitsConcat(open + t, close);
    NonDigitsConcat(open, t);
    assert NonDigits(open) == open + NonDigits([]) && NonDigits(close) == close + NonDigits([]);
  }

  function PathPunctuation(p: Path): string {
    if p == [] then "" else if |p| == 1 then Punctuation(p[0].kind, |p[0].asns|)
    else Punctuation(p[0].kind, |p[0].asns|) + " " + PathPunctuation(p[1..])
  }

  /** A printed path, its digits left out: the punctuation of its segments with a blank between them. */
  lemma {:induction false} PrintedPunctuation(p: Path)
    ensures NonDigits(ShowPath(p)) == PathPunctuation(p)
  {
    if p != [] {
      SegmentPunctuation(p[0]);
      if |p| > 1 {
        PrintedPunctuation(p[1..]);
        NonDigitsConcat(ShowSeg(p[0]) + " ", ShowPath(p[1..]));
        NonDigitsConcat(ShowSeg(p[0]), " ");
        assert NonDigits(" ") == " " + NonDigits("");
      }
    }
  }

  // ---------- tokens ----------

  datatype Token = AsVal(asn: Word) | Start(kind: SegType) | End

  predicate Skipped(c: char) {
    IsSpace(c) || c == ','
  }

  function Bracket(c: char): Option<Token> {
    match c
    case '{' => Some(Start(Set))
    case '(' => Some(Start(ConfedSequence))
    case '[' => Some(Start(ConfedSet))
    case '}' => Some(End)
    case ')' => Some(End)
    case ']' => Some(End)
    case _ => None
  }

  function Cons(t: Token, ts: Option<seq<Token>>): Option<seq<Token>> {
    if ts.Some? then Some([t] + ts.value) else None
  }

  /** All the tokens of a text, or None when it has a character that starts none. */
  function Lex(s: string): Option<seq<Token>>
    decreases |s|
  {
    if s == "" then Some([])
    else if Skipped(s[0]) then Lex(s[1..])
    else if Bracket(s[0]).Some? then Cons(Bracket(s[0]).value, Lex(s[1..]))
    else if IsDigit(s[0]) then
      var n := DigitRun(s);
      assert n > 0;
      Cons(AsVal(Value(s[..n])), Lex(s[n..]))
    else None
  }

  // ---------- assembling segments ----------

  /** The parser between two tokens: what it has built, the type a bare number opens, whether it must open one. */
  datatype State = State(path: Path, kind: SegType, needType: bool)

  const START := State([], Sequence, true)

  function AddAsn(p: Path, x: Word): Path {
    if p == [] then p else p[..|p| - 1] + [Segment(p[|p| - 1].kind, p[|p| - 1].asns + [x])]
  }

  function Accept(st: State, t: Token): State {
    match t
    case AsVal(x) =>
      var p := if st.needType then st.path + [Segment(st.kind, [])] else st.path;
      State(AddAsn(p, x), st.kind, false)
    case Start(k) => State(st.path + [Segment(k, [])], k, false)
    case End => State(st.path, Sequence, true)
  }

  function AcceptAll(st: State, ts: seq<Token>): State
    decreases |ts|
  {
    if ts == [] then st else AcceptAll(Accept(st, ts[0]), ts[1..])
  }

  function ParseText(s: string): Option<Path> {
    var ts := Lex(s);
    if ts.Some? then Some(AcceptAll(START, ts.value).path) else None
  }

  // ---------- the tokens of a printed path ----------

  function Values(a: seq<Word>): (ts: seq<Token>)
    ensures |ts| == |a|
  {
    if a == [] then [] else [AsVal(a[0])] + Values(a[1..])
  }

  function SegTokens(s: Segment): seq<Token> {
    if s.kind == Sequence then Values(s.asns) else [Start(s.kind)] + Values(s.asns) + [End]
  }

  function Tokens(p: Path): seq<Token> {
    if p == [] then [] else SegTokens(p[0]) + Tokens(p[1..])
  }

  function Before(ts: seq<Token>, more: Option<seq<Token>>): Option<seq<Token>> {
    if more.Some? then Some(ts + more.value) else None
  }

  lemma LexNumber(x: Word, rest: string)
    requires rest == "" || !IsDigit(rest[0])
    ensures Lex(Show(x) + rest) == Cons(AsVal(x), Lex(rest))
  {
    var s := Show(x) + rest;
    assert IsDigit(s[0]);
    RunOfNumber(Show(x), rest);
    ValueOfShow(x);
    assert s[..|Show(x)|] == Show(x) && s[|Show(x)|..] == rest;
  }

  lemma LexSkip(c: char, rest: string)
    requires Skipped(c)
    ensures Lex([c] + rest) == Lex(rest)
  {
    assert ([c] + rest)[1..] == rest;
  }

  lemma LexBracket(c: char, rest: string)
    requires Bracket(c).Some?
    ensures Lex([c] + rest) == Cons(Bracket(c).value, Lex(rest))
  {
    assert ([c] + rest)[1..] == rest;
  }

  /** The rest of the text does not continue a number. */
  predicate Breaks(rest: string) {
    rest == "" || !IsDigit(rest[0])
  }

  lemma ConsBefore(t: Token, ts: seq<Token>, more: Option<seq<Token>>)
    ensures Cons(t, Before(ts, more)) == Before([t] + ts, more)
    ensures Before([], more) == more
  {
    if more.Some? {
      assert [t] + (ts + more.value) == [t] + ts + more.value;
      assert [] + more.value == more.value;
    }
  }

  lemma BeforeBefore(a: seq<Token>, b: seq<Token>, more: Option<seq<Token>>)
    ensures Before(a, Before(b, more)) == Before(a + b, more)
  {
    if more.Some? {
      assert a + (b + more.value) == a + b + more.value;
    }
  }

  lemma {:induction false} LexAsns(a: seq<Word>, sep: char, rest: string)
    requires Skipped(sep) && Breaks(rest)
    ensures Lex(ShowAsns(a, sep) + rest) == Before(Values(a), Lex(rest))
  {
    if a == [] {
      assert "" + rest == rest;
      ConsBefore(End, [], Lex(rest));
    } else {
      ConsBefore(AsVal(a[0]), Values(a[1..]), Lex(rest));
      if |a| == 1 {
        LexNumber(a[0], rest);
        assert Values(a[1..]) == [];
        ConsBefore(End, [], Lex(rest));
      } else {
        var more := ShowAsns(a[1..], sep) + rest;
        LexAsns(a[1..], sep, rest);
        LexSkip(sep, more);
        LexNumber(a[0], [sep] + more);
        AppendAssoc4(Show(a[0]), [sep], ShowAsns(a[1..], sep), rest);
      }
    }
  }

  lemma LexSeg(s: Segment, rest: string)
    requires Breaks(rest)
    ensures Lex(ShowSeg(s) + rest) == Before(SegTokens(s), Lex(rest))
  {
    var sep := Separator(s.kind);
    if s.kind == Sequence {
      LexAsns(s.asns, sep, rest);
    } else {
      LexBracketed(s.kind, ShowAsns(s.asns, sep), rest, s.asns);
    }
  }

  lemma LexBracketed(k: SegType, t: string, rest: string, a: seq<Word>)
    requires k != Sequence && Breaks(rest) && t == ShowAsns(a, Separator(k))
    ensures Lex([StartChar(k)] + t + [EndChar(k)] + rest) == Before([Start(k)] + Values(a) + [End], Lex(rest))
  {
    var tail := [EndChar(k)] + rest;
    LexBracket(EndChar(k), rest);
    LexAsns(a, Separator(k), tail);
    LexBracket(StartChar(k), t + tail);
    AppendAssoc4([StartChar(k)], t, [EndChar(k)], rest);
    ConsBefore(End, [], Lex(rest));
    BeforeBefore(Values(a), [End], Lex(rest));
    ConsBefore(Start(k), Values(a) + [End], Lex(rest));
    assert [Start(k)] + (Values(a) + [End]) == [Start(k)] + Values(a) + [End];
  }

  lemma {:induction false} LexPath(p: Path)
    ensures Lex(ShowPath(p)) == Some(Tokens(p))
  {
    if p != [] {
      if |p| == 1 {
        LexSeg(p[0], "");
        assert ShowSeg(p[0]) + "" == ShowSeg(p[0]);
        assert p[1..] == [];
      } else {
        LexPath(p[1..]);
        LexSkip(' ', ShowPath(p[1..]));
        LexSeg(p[0], " " + ShowPath(p[1..]));
        assert ShowPath(p) == ShowSeg(p[0]) + (" " + ShowPath(p[1..]));
      }
    }
  }

  // ---------- the segments those tokens build ----------

  /** What the text keeps of a path: empty sequences go, neighbouring sequences run together. */
  function Retell(p: Path): Path {
    if p == [] then [] else
    if p[0] == Segment(Sequence, []) then Retell(p[1..]) else Join(p[0], Retell(p[1..]))
  }

  lemma {:induction false} AcceptConcat(st: State, a: seq<Token>, b: seq<Token>)
    ensures AcceptAll(st, a + b) == AcceptAll(AcceptAll(st, a), b)
    decreases |a|
  {
    if a == [] {
      assert a + b == b;
    } else {
      assert (a + b)[1..] == a[1..] + b;
      AcceptConcat(Accept(st, a[0]), a[1..], b);
    }
  }

  lemma AddToLast(done: Path, s: Segment, x: Word)
    ensures AddAsn(done + [s], x) == done + [Segment(s.kind, s.asns + [x])]
  {
    assert (done + [s])[..|done|] == done;
  }

  /** Numbers go to the open segment. */
  lemma {:induction false} AcceptValues(done: Path, k: SegType, sk: SegType, have: seq<Word>, a: seq<Word>)
    ensures AcceptAll(State(done + [Segment(k, have)], sk, false), Values(a)) ==
      State(done + [Segment(k, have + a)], sk, false)
    decreases |a|
  {
    var st := State(done + [Segment(k, have)], sk, false);
    if a == [] {
      assert have + a == have;
    } else {
      assert Accept(st, AsVal(a[0])) == State(done + [Segment(k, have + [a[0]])], sk, false);
      AcceptValues(done, k, sk, have + [a[0]], a[1..]);
      assert have + [a[0]] + a[1..] == have + a;
    }
  }

  /** Where the parser stands between segments. */
  predicate Closed(st: State) {
    st.kind == Sequence && st.needType
  }

  lemma AcceptBracketed(st: State, s: Segment)
    requires s.kind != Sequence
    ensures AcceptAll(st, SegTokens(s)) == State(st.path + [s], Sequence, true)
  {
    var ts := Values(s.asns);
    AcceptConcat(st, [Start(s.kind)] + ts, [End]);
    AcceptConcat(st, [Start(s.kind)], ts);
    assert [Start(s.kind)][1..] == [] && [End][1..] == [];
    AcceptValues(st.path, s.kind, s.kind, [], s.asns);
    assert [] + s.asns == s.asns;
  }

  lemma AcceptSequence(st: State, a: seq<Word>)
    requires Closed(st) && a != []
    ensures AcceptAll(st, Values(a)) == State(st.path + [Segment(Sequence, a)], Sequence, false)
  {
    AddToLast(st.path, Segment(Sequence, []), a[0]);
    assert [] + [a[0]] == [a[0]];
    AcceptValues(st.path, Sequence, Sequence, [a[0]], a[1..]);
    assert [a[0]] + a[1..] == a;
  }

  /** Between segments, the rest of a path is appended as it is retold. */
  lemma {:induction false} AcceptClosed(st: State, p: Path)
    requires Closed(st)
    ensures AcceptAll(st, Tokens(p)).path == st.path + Retell(p)
    decreases |p|
  {
    if p == [] {
      assert st.path + [] == st.path;
    } else {
      var s, t := p[0], p[1..];
      AcceptConcat(st, SegTokens(s), Tokens(t));
      if s.kind != Sequence {
        AcceptBracketed(st, s);
        AcceptClosed(State(st.path + [s], Sequence, true), t);
        AppendAssoc(st.path, [s], Retell(t));
      } else if s.asns == [] {
        assert s == Segment(Sequence, []) && SegTokens(s) == [];
        AcceptClosed(st, t);
      } else {
        AcceptSequence(st, s.asns);
        AcceptOpen(st.path, s.asns, t);
        assert s == Segment(Sequence, s.asns);
      }
    }
  }

  /** Inside an open sequence, a following sequence joins it. */
  lemma {:induction false} AcceptOpen(done: Path, have: seq<Word>, p: Path)
    ensures AcceptAll(State(done + [Segment(Sequence, have)], Sequence, false), Tokens(p)).path
         == done + Join(Segment(Sequence, have), Retell(p))
    decreases |p|
  {
    var st := State(done + [Segment(Sequence, have)], Sequence, false);
    if p != [] {
      var s, t := p[0], p[1..];
      AcceptConcat(st, SegTokens(s), Tokens(t));
      if s.kind != Sequence {
        AcceptBracketed(st, s);
        AcceptClosed(State(st.path + [s], Sequence, true), t);
        AcceptApart(done, Segment(Sequence, have), s, Retell(t));
      } else if s.asns == [] {
        assert s == Segment(Sequence, []) && SegTokens(s) == [];
        AcceptOpen(done, have, t);
      } else {
        AcceptValues(done, Sequence, Sequence, have, s.asns);
        AcceptOpen(done, have + s.asns, t);
        JoinCut(have, s.asns, Retell(t));
        assert s == Segment(Sequence, s.asns);
      }
    }
  }

  lemma AcceptApart(done: Path, q: Segment, s: Segment, more: Path)
    requires s.kind != Sequence
    ensures done + [q] + [s] + more == done + Join(q, Join(s, more))
  {
  }

  /** Parsing a printed path, any path, gives it back as retold. */
  lemma TextOfPath(p: Path)
    ensures ParseText(ShowPath(p)) == Some(Retell(p))
  {
    LexPath(p);
    AcceptClosed(START, p);
    assert [] + Retell(p) == Retell(p);
  }

  predicate NoEmptySequence(p: Path) {
    forall i :: 0 <= i < |p| ==> p[i] != Segment(Sequence, [])
  }

  lemma {:induction false} RetellLength(p: Path)
    ensures |Retell(p)| <= |p|
    ensures !NoEmptySequence(p) ==> |Retell(p)| < |p|
  {
    if p != [] {
      RetellLength(p[1..]);
      if p[0] != Segment(Sequence, []) && !NoEmptySequence(p) {
        var i :| 0 <= i < |p| && p[i] == Segment(Sequence, []);
        assert p[1..][i - 1] == p[i];
      }
    }
  }

  lemma {:induction false} RetellNormal(p: Path)
    requires Normal(p) && NoEmptySequence(p)
    ensures Retell(p) == p
  {
    if p != [] {
      var t := p[1..];
      assert forall i :: 0 <= i < |t| ==> t[i] == p[i + 1];
      RetellNormal(t);
      assert p == [p[0]] + t;
    }
  }

  /** For normalised paths text is faithful exactly when no AS_SEQUENCE is empty. */
  lemma TextRoundTrip(p: Path)
    requires Normal(p)
    ensures ParseText(ShowPath(p)) == Some(p) <==> NoEmptySequence(p)
  {
    TextOfPath(p);
    RetellLength(p);
    if NoEmptySequence(p) {
      RetellNormal(p);
    }
  }

  // ---------- the printer and its buffer ----------

  const STR_DEFAULT_LEN := 32
  const ASN_STR_LEN := 11

  /** snprintf at the end of a buffer of the given size: what does not fit is cut off, the full length is counted. */
  method Snprintf(buf: string, len: nat, size: nat, text: string) returns (b: string, n: nat)
    requires |buf| == len < size
    ensures n == len + |text|
    ensures n < size ==> b == buf + text
  {
    n := len + |text|;
    b := buf + if n < size then text else text[..size - len - 1];
  }

  method CountAsns(p: Path) returns (count: nat)
    ensures count == AsnCount(p)
  {
    count := 0;
    for i := 0 to |p|
      invariant count + AsnCount(p[i..]) == AsnCount(p)
    {
      assert p[i..][1..] == p[i + 1..];
      count := count + |p[i].asns|;
    }
    assert p[|p|..] == [];
  }

  lemma ShowAsnsStep(a: seq<Word>, i: nat, sep: char)
    requires i < |a|
    ensures ShowAsns(a[i..], sep) == Show(a[i]) + if i < |a| - 1 then [sep] + ShowAsns(a[i + 1..], sep) else ""
  {
    assert a[i..][1..] == a[i + 1..];
    if i < |a| - 1 {
      assert Show(a[i]) + [sep] + ShowAsns(a[i + 1..], sep) == Show(a[i]) + ([sep] + ShowAsns(a[i + 1..], sep));
    } else {
      assert Show(a[i]) + "" == Show(a[i]);
    }
  }

  /** Prints the numbers of a segment; eleven characters each are enough. */
  method PrintAsns(buf: string, len: nat, size: nat, a: seq<Word>, sep: char) returns (b: string, n: nat)
    requires |buf| == len && len + ASN_STR_LEN * |a| < size
    ensures b == buf + ShowAsns(a, sep) && n == |b| <= len + ASN_STR_LEN * |a|
  {
    b, n := buf, len;
    for i := 0 to |a|
      invariant |b| == n <= len + ASN_STR_LEN * i
      invariant b + ShowAsns(a[i..], sep) == buf + ShowAsns(a, sep)
    {
      ShowAsnsStep(a, i, sep);
      ShowWidth(a[i]);
      b, n := Snprintf(b, n, size, Show(a[i]));
      if i < |a| - 1 {
        b, n := Snprintf(b, n, size, [sep]);
      }
    }
    assert a[|a|..] == [] && b + "" == b;
  }

  /** Prints one segment with its delimiters into a buffer with the room SEGMENT_STR_LEN asks for. */
  method PrintSegment(buf: string, len: nat, size: nat, s: Segment) returns (b: string, n: nat)
    requires |buf| == len && len + ASN_STR_LEN * |s.asns| + 4 <= size
    ensures b == buf + ShowSeg(s) && n == |b| && n + 1 < size
  {
    b, n := buf, len;
    if s.kind != Sequence {
      b, n := Snprintf(b, n, size, [StartChar(s.kind)]);
    }
    b, n := PrintAsns(b, n, size, s.asns, Separator(s.kind));
    if s.kind != Sequence {
      b, n := Snprintf(b, n, size, [EndChar(s.kind)]);
    }
  }

  lemma ShowPathStep(p: Path, i: nat)
    requires i < |p|
    ensures ShowPath(p[i..]) == ShowSeg(p[i]) + if i < |p| - 1 then " " + ShowPath(p[i + 1..]) else ""
  {
    assert p[i..][1..] == p[i + 1..];
    if i < |p| - 1 {
      assert ShowSeg(p[i]) + " " + ShowPath(p[i + 1..]) == ShowSeg(p[i]) + (" " + ShowPath(p[i + 1..]));
    } else {
      assert ShowSeg(p[i]) + "" == ShowSeg(p[i]);
    }
  }

  /** The printer: nothing is ever cut off and the final length stays below the buffer size. */
  method MakeStr(p: Path) returns (str: string)
    ensures str == ShowPath(p)
  {
    if |p| == 0 {
      return "";
    }
    var count := CountAsns(p);
    var size := count * ASN_STR_LEN + 2 + 1;
    if size < STR_DEFAULT_LEN {
      size := STR_DEFAULT_LEN;
    }
    var len := 0;
    str := "";
    for i := 0 to |p|
      invariant |str| == len < size
      invariant str + ShowPath(p[i..]) == ShowPath(p)
    {
      ShowPathStep(p, i);
      var need := |p[i].asns| * ASN_STR_LEN + 2 + 1 + 1;
      if len + need > size {
        size := len + need;
      }
      AppendAssoc4(str, ShowSeg(p[i]), " ", ShowPath(p[i + 1..]));
      str, len := PrintSegment(str, len, size, p[i]);
      if i + 1 < |p| {
        str, len := Snprintf(str, len, size, " ");
      }
    }
    assert len < size;
    assert p[|p|..] == [] && str + "" == str;
  }

  // ---------- the tokeniser and the parser ----------

  datatype Got = AtEnd | Got(next: nat, token: Token) | Unknown

  method GetToken(buf: string, pos: nat) returns (r: Got)
    requires pos <= |buf|
    ensures match r
      case AtEnd => Lex(buf[pos..]) == Some([])
      case Got(next, token) => pos < next <= |buf| && Lex(buf[pos..]) == Cons(token, Lex(buf[next..]))
      case Unknown => Lex(buf[pos..]) == None
  {
    var p := pos;
    while p < |buf| && Skipped(buf[p])
      invariant pos <= p <= |buf| && Lex(buf[p..]) == Lex(buf[pos..])
    {
      assert buf[p..][1..] == buf[p + 1..];
      p := p + 1;
    }
    if p == |buf| {
      return AtEnd;
    }
    var rest := buf[p..];
    assert rest[1..] == buf[p + 1..];
    if Bracket(buf[p]).Some? {
      return Got(p + 1, Bracket(buf[p]).value);
    }
    if IsDigit(buf[p]) {
      r := GetAsn(buf, p);
    } else {
      r := Unknown;
    }
  }

  lemma LexDigits(s: string, n: nat, v: Word)
    requires s != "" && IsDigit(s[0]) && n == DigitRun(s) && v == Value(s[..n])
    ensures Lex(s) == Cons(AsVal(v), Lex(s[n..]))
  {
  }

  lemma LexAsn(buf: string, p: nat, n: nat, v: Word)
    requires p < |buf| && IsDigit(buf[p]) && n == DigitRun(buf[p..]) && v == Value(buf[p..][..n])
    ensures p + n <= |buf| && Lex(buf[p..]) == Cons(AsVal(v), Lex(buf[p + n..]))
  {
    assert buf[p..][n..] == buf[p + n..];
    LexDigits(buf[p..], n, v);
  }

  method GetAsn(buf: string, p: nat) returns (r: Got)
    requires p < |buf| && IsDigit(buf[p])
    ensures r.Got? && p < r.next <= |buf| && Lex(buf[p..]) == Cons(r.token, Lex(buf[r.next..]))
  {
    var n, v := GetNumber(buf[p..]);
    LexAsn(buf, p, n, v);
    r := Got(p + n, AsVal(v));
  }

  /** The digit loop, in 32-bit arithmetic. */
  method GetNumber(s: string) returns (n: nat, v: Word)
    requires s != "" && IsDigit(s[0])
    ensures n == DigitRun(s) && n > 0 && v == Value(s[..n])
  {
    v := DigitValue(s[0]);
    n := 1;
    assert s[..1] == [s[0]] && s[..1][..0] == "";
    while n < |s| && IsDigit(s[n])
      invariant 1 <= n <= |s| && AllDigits(s[..n]) && v == Value(s[..n])
    {
      ValueSnoc(s, n);
      v := Shift(v, DigitValue(s[n]));
      n := n + 1;
    }
    RunOfNumber(s[..n], s[n..]);
    assert s == s[..n] + s[n..];
  }

  method Str2Aspath(str: string) returns (r: Option<Path>)
    ensures r == ParseText(str)
  {
    var st := START;
    var pos := 0;
    ghost var seen: seq<Token> := [];
    assert str[0..] == str;
    ConsBefore(End, [], Lex(str));
    while true
      invariant pos <= |str| && st == AcceptAll(START, seen)
      invariant Lex(str) == Before(seen, Lex(str[pos..]))
      decreases |str| - pos
    {
      var t := GetToken(str, pos);
      match t {
        case AtEnd =>
          assert seen + [] == seen;
          return Some(st.path);
        case Unknown =>
          return None;
        case Got(next, token) =>
          ConsBefore(token, [], Lex(str[next..]));
          BeforeBefore(seen, [token], Lex(str[next..]));
          AcceptConcat(START, seen, [token]);
          assert [token][1..] == [];
          st := Accept(st, token);
          seen := seen + [token];
          pos := next;
      }
    }
  }
}
