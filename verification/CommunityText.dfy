/** Communities as text: well-known names, and high:low pairs of decimal numbers. */
module CommunityText {
  import opened Community
  import opened Decimal
  import opened Sequences
  import opened SortedSets
  import opened Wrappers

  const INTERNET: Word := 0
  const NO_EXPORT: Word := 0xFFFFFF01
  const NO_ADVERTISE: Word := 0xFFFFFF02
  const LOCAL_AS: Word := 0xFFFFFF03

  // ---------- printing ----------

  function High(v: Word): Word {
    v / 0x10000
  }

  function Low(v: Word): Word {
    v % 0x10000
  }

  function Name(v: Word): string {
    if v == INTERNET then "internet"
    else if v == NO_EXPORT then "no-export"
    else if v == NO_ADVERTISE then "no-advertise"
    else if v == LOCAL_AS then "local-AS"
    else Show(High(v)) + ":" + Show(Low(v))
  }

  /** The values in order, separated by single blanks. */
  function Text(s: seq<Word>): string {
    if s == [] then "" else if |s| == 1 then Name(s[0]) else Name(s[0]) + " " + Text(s[1..])
  }

  /** The room set aside for one value: its name and a blank, or a blank and two five-digit numbers. */
  function Room(v: Word): nat {
    if v == INTERNET then 9
    else if v == NO_EXPORT then 10
    else if v == NO_ADVERTISE then 13
    else if v == LOCAL_AS then 9
    else 12
  }

  function TotalRoom(s: seq<Word>): nat {
    if s == [] then 0 else Room(s[0]) + TotalRoom(s[1..])
  }

  lemma NameFits(v: Word)
    ensures 0 < |Name(v)| < Room(v)
  {
    ShowWidth(High(v));
    ShowWidth(Low(v));
  }

  /** The text and its terminator fit the room set aside. */
  lemma {:induction false} TextFits(s: seq<Word>)
    requires s != []
    ensures |Text(s)| < TotalRoom(s)
  {
    NameFits(s[0]);
    if |s| > 1 {
      TextFits(s[1..]);
    }
  }

  // ---------- reading ----------

  predicate IsAlpha(c: char) {
    'a' <= c <= 'z' || 'A' <= c <= 'Z'
  }

  function SkipSpace(s: string): (r: string)
    ensures |r| <= |s| && (r != "" ==> !IsSpace(r[0]))
  {
    if s != "" && IsSpace(s[0]) then SkipSpace(s[1..]) else s
  }

  /** The next token: nothing more, no community, or a community and the text after it. */
  datatype Token = End | Bad | Value(v: Word, rest: string)

  /** Reading a number, possibly a high:low pair, in 32-bit arithmetic. */
  function Scan(s: string, sep: bool, digit: bool, high: Word, low: Word): (t: Token)
    ensures t != End && (t.Value? ==> |t.rest| <= |s|)
    decreases |s|
  {
    if s != "" && s[0] == ':' then
      if sep then Bad else Scan(s[1..], true, false, low * 0x10000 % 0x1_0000_0000, 0)
    else if s != "" && IsDigit(s[0]) then
      Scan(s[1..], sep, true, high, Shift(low, DigitValue(s[0])))
    else if digit then Value((high + low) % 0x1_0000_0000, s)
    else Bad
  }

  predicate Starts(s: string, w: string) {
    |w| <= |s| && s[..|w|] == w
  }

  function Next(s: string): (t: Token)
    ensures t.Value? ==> |t.rest| < |s|
  {
    var t := SkipSpace(s);
    if t == "" then End
    else if IsAlpha(t[0]) then
      if Starts(t, "internet") then Value(INTERNET, t[8..])
      else if Starts(t, "no-export") then Value(NO_EXPORT, t[9..])
      else if Starts(t, "no-advertise") then Value(NO_ADVERTISE, t[12..])
      else if Starts(t, "local-AS") then Value(LOCAL_AS, t[8..])
      else Bad
    else if IsDigit(t[0]) then Scan(t[1..], false, true, 0, DigitValue(t[0]))
    else Bad
  }

  /** The values read; at the end of the text the last one is taken once more, and without one there is nothing. */
  function Values(s: string, acc: seq<Word>): Option<seq<Word>>
    decreases |s|
  {
    match Next(s)
    case End => if acc == [] then None else Some(acc + [Last(acc)])
    case Bad => None
    case Value(v, rest) => Values(rest, acc + [v])
  }

  function Parse(s: string): Option<seq<Word>> {
    var r := Values(s, []);
    if r == None then None else Some(Canon(r.value))
  }

  // ---------- round trip ----------

  /** Digits folded, most significant first, onto a value. */
  function Fold(low: Word, ds: string): Word
    requires AllDigits(ds)
    decreases |ds|
  {
    if ds == "" then low else Fold(Shift(low, DigitValue(ds[0])), ds[1..])
  }

  lemma {:induction false} FoldSnoc(low: Word, ds: string, c: char)
    requires AllDigits(ds) && IsDigit(c)
    ensures AllDigits(ds + [c]) && Fold(low, ds + [c]) == Shift(Fold(low, ds), DigitValue(c))
    decreases |ds|
  {
    if ds == "" {
      assert (ds + [c])[1..] == "";
    } else {
      assert (ds + [c])[1..] == ds[1..] + [c];
      FoldSnoc(Shift(low, DigitValue(ds[0])), ds[1..], c);
    }
  }

  lemma {:induction false} FoldIsValue(ds: string)
    requires AllDigits(ds)
    ensures Fold(0, ds) == Decimal.Value(ds)
  {
    if ds != "" {
      var n := |ds| - 1;
      assert ds == ds[..n] + [ds[n]];
      FoldIsValue(ds[..n]);
      FoldSnoc(0, ds[..n], ds[n]);
    }
  }

  lemma {:induction false} ScanDigits(ds: string, rest: string, sep: bool, digit: bool, high: Word, low: Word)
    requires AllDigits(ds) && ds != ""
    ensures Scan(ds + rest, sep, digit, high, low) == Scan(rest, sep, true, high, Fold(low, ds))
    decreases |ds|
  {
    assert (ds + rest)[1..] == ds[1..] + rest && (ds + rest)[0] == ds[0];
    if |ds| > 1 {
      ScanDigits(ds[1..], rest, sep, true, high, Shift(low, DigitValue(ds[0])));
    } else {
      assert ds[1..] + rest == rest;
    }
  }

  predicate Stops(rest: string) {
    rest == "" || rest[0] == ' '
  }

  lemma ScanNumber(x: Word, rest: string, sep: bool, high: Word)
    ensures Scan(Show(x) + rest, sep, false, high, 0) == Scan(rest, sep, true, high, x)
  {
    ScanDigits(Show(x), rest, sep, false, high, 0);
    FoldIsValue(Show(x));
    ValueOfShow(x);
  }

  lemma ScanColon(t: string, low: Word)
    ensures Scan(":" + t, false, true, 0, low) == Scan(t, true, false, low * 0x10000 % 0x1_0000_0000, 0)
  {
    assert (":" + t)[1..] == t;
  }

  /** The high half, shifted into place. */
  function Shifted(v: Word): (h: Word)
    ensures h + Low(v) == v && h == High(v) * 0x10000 % 0x1_0000_0000
  {
    v - Low(v)
  }

  lemma ScanEnd(rest: string, v: Word)
    requires Stops(rest)
    ensures Scan(rest, true, true, Shifted(v), Low(v)) == Value(v, rest)
  {
  }

  lemma ScanPair(v: Word, rest: string)
    requires Stops(rest)
    ensures Scan(Show(High(v)) + (":" + (Show(Low(v)) + rest)), false, false, 0, 0) == Value(v, rest)
  {
    var l := Show(Low(v)) + rest;
    ScanNumber(High(v), ":" + l, false, 0);
    ScanColon(l, High(v));
    ScanNumber(Low(v), rest, true, Shifted(v));
    ScanEnd(rest, v);
  }

  /** A text starting with a digit is read as a number. */
  lemma NextNumber(t: string)
    requires t != "" && IsDigit(t[0])
    ensures Next(t) == Scan(t, false, false, 0, 0)
  {
    assert Shift(0, DigitValue(t[0])) == DigitValue(t[0]);
  }

  lemma NextPair(v: Word, rest: string)
    requires Stops(rest)
    ensures Next(Show(High(v)) + ":" + Show(Low(v)) + rest) == Value(v, rest)
  {
    var h := Show(High(v));
    AppendAssoc4(h, ":", Show(Low(v)), rest);
    assert (h + (":" + (Show(Low(v)) + rest)))[0] == h[0];
    NextNumber(h + (":" + (Show(Low(v)) + rest)));
    ScanPair(v, rest);
  }

  // ---------- numbers and pairs, whatever the digits ----------

  /** Neither a digit nor a colon follows. */
  predicate Closes(rest: string) {
    rest == "" || (!IsDigit(rest[0]) && rest[0] != ':')
  }

  lemma ScanClosed(rest: string, sep: bool, high: Word, low: Word)
    requires Closes(rest)
    ensures Scan(rest, sep, true, high, low) == Value((high + low) % 0x1_0000_0000, rest)
    ensures high == 0 ==> Scan(rest, sep, true, high, low) == Value(low, rest)
    ensures Scan(rest, sep, false, high, low) == Bad
  {
  }

  lemma ScanWraps(ds: string, rest: string, sep: bool, high: Word)
    requires AllDigits(ds) && ds != ""
    ensures Scan(ds + rest, sep, false, high, 0) == Scan(rest, sep, true, high, Numeral(ds) % 0x1_0000_0000)
  {
    ScanDigits(ds, rest, sep, false, high, 0);
    FoldIsValue(ds);
    ValueWraps(ds);
  }

  lemma NextDigits(ds: string, rest: string)
    requires AllDigits(ds) && ds != ""
    ensures Next(ds + rest) == Scan(rest, false, true, 0, Numeral(ds) % 0x1_0000_0000)
  {
    NextNumber(ds + rest);
    ScanWraps(ds, rest, false, 0);
  }

  /** A number on its own is the community, modulo 2 to the 32. */
  lemma NumberRead(ds: string, rest: string)
    requires AllDigits(ds) && ds != "" && Closes(rest)
    ensures Next(ds + rest) == Value(Numeral(ds) % 0x1_0000_0000, rest)
  {
    var a: Word := Numeral(ds) % 0x1_0000_0000;
    NextDigits(ds, rest);
    ScanClosed(rest, false, 0, a);
  }

  lemma PairWraps(a: nat, b: nat)
    ensures (a % 0x1_0000_0000 * 0x10000 % 0x1_0000_0000 + b % 0x1_0000_0000) % 0x1_0000_0000
         == (0x10000 * a + b) % 0x1_0000_0000
  {
    var w, x, y := 0x1_0000_0000, a % 0x1_0000_0000, b % 0x1_0000_0000;
    var i, j, k := a / w, b / w, x * 0x10000 / w;
    assert 0x10000 * a + b == (x * 0x10000 % w + y) + (0x10000 * i + j + k) * w;
    AddWraps(x * 0x10000 % w + y, 0x10000 * i + j + k);
  }

  lemma PairScanned(ds: string, es: string, rest: string, a: Word, b: Word, high: Word)
    requires AllDigits(ds) && ds != "" && AllDigits(es) && es != "" && Closes(rest)
    requires a == Numeral(ds) % 0x1_0000_0000 && b == Numeral(es) % 0x1_0000_0000
    requires high == a * 0x10000 % 0x1_0000_0000
    ensures Next(ds + (":" + (es + rest))) == Value((high + b) % 0x1_0000_0000, rest)
  {
    NextDigits(ds, ":" + (es + rest));
    ScanColon(es + rest, a);
    ScanWraps(es, rest, true, high);
    ScanClosed(rest, true, high, b);
  }

  /** Two numbers with a colon between them: the first is shifted up by 16 bits, and both are cut to 32. */
  lemma PairRead(ds: string, es: string, rest: string)
    requires AllDigits(ds) && ds != "" && AllDigits(es) && es != "" && Closes(rest)
    ensures Next(ds + (":" + (es + rest))) == Value((0x10000 * Numeral(ds) + Numeral(es)) % 0x1_0000_0000, rest)
  {
    var a, b := Numeral(ds) % 0x1_0000_0000, Numeral(es) % 0x1_0000_0000;
    PairScanned(ds, es, rest, a, b, a * 0x10000 % 0x1_0000_0000);
    PairWraps(Numeral(ds), Numeral(es));
  }

  /** A colon with no number behind it, and a second colon, are refused. */
  lemma PairRefused(ds: string, es: string, rest: string)
    requires AllDigits(ds) && ds != "" && AllDigits(es)
    ensures es == "" && Closes(rest) ==> Next(ds + (":" + rest)) == Bad
    ensures Next(ds + (":" + (es + (":" + rest)))) == Bad
  {
    var a := Numeral(ds) % 0x1_0000_0000;
    var high := a * 0x10000 % 0x1_0000_0000;
    if es == "" && Closes(rest) {
      NextDigits(ds, ":" + rest);
      ScanColon(rest, a);
      ScanClosed(rest, true, high, 0);
    }
    var tail := es + (":" + rest);
    NextDigits(ds, ":" + tail);
    ScanColon(tail, a);
    if es == "" {
      assert tail == ":" + rest;
    } else {
      ScanWraps(es, ":" + rest, true, high);
    }
  }

  lemma StartsAppend(w: string, rest: string)
    ensures Starts(w + rest, w) && (w + rest)[|w|..] == rest
  {
  }

  lemma NextName(v: Word, rest: string)
    requires Stops(rest)
    ensures Next(Name(v) + rest) == Value(v, rest)
  {
    var t := Name(v) + rest;
    if v == INTERNET {
      StartsAppend("internet", rest);
    } else if v == NO_EXPORT {
      StartsAppend("no-export", rest);
    } else if v == NO_ADVERTISE {
      StartsAppend("no-advertise", rest);
      assert t[3] == 'a';
    } else if v == LOCAL_AS {
      StartsAppend("local-AS", rest);
    } else {
      NextPair(v, rest);
    }
  }

  lemma NextBlank(s: string)
    ensures Next(" " + s) == Next(s)
  {
    assert (" " + s)[1..] == s;
  }

  lemma ValuesEnd(acc: seq<Word>, v: Word)
    ensures Values("", acc + [v]) == Some(acc + [v] + [v])
  {
    assert Last(acc + [v]) == v;
  }

  lemma ValuesBlank(t: string, acc: seq<Word>)
    ensures Values(" " + t, acc) == Values(t, acc)
  {
    NextBlank(t);
  }

  lemma ValuesName(v: Word, rest: string, acc: seq<Word>)
    requires Stops(rest)
    ensures Values(Name(v) + rest, acc) == Values(rest, acc + [v])
  {
    NextName(v, rest);
  }

  /** Reading printed values gives them back, with the last one twice. */
  lemma {:induction false} ValuesOfText(s: seq<Word>, acc: seq<Word>)
    requires s != []
    ensures Values(Text(s), acc) == Some(acc + s + [Last(s)])
    decreases |s|
  {
    AppendAssoc(acc, [s[0]], s[1..]);
    assert s == [s[0]] + s[1..];
    if |s| == 1 {
      assert Name(s[0]) + "" == Name(s[0]);
      ValuesName(s[0], "", acc);
      ValuesEnd(acc, s[0]);
      assert s == [s[0]];
    } else {
      AppendAssoc(Name(s[0]), " ", Text(s[1..]));
      ValuesName(s[0], " " + Text(s[1..]), acc);
      ValuesBlank(Text(s[1..]), acc + [s[0]]);
      ValuesOfText(s[1..], acc + [s[0]]);
    }
  }

  lemma LastTwice(s: seq<Word>)
    requires s != []
    ensures Canon(s + [Last(s)]) == Canon(s)
  {
    assert Init(s + [Last(s)]) == s;
    assert Last(s) in Members(s);
    CanonUnique(s + [Last(s)], s);
  }

  /** Parsing printed communities gives the canonical list of what was printed, and nothing when nothing was. */
  lemma TextRoundTrip(s: seq<Word>)
    ensures Parse(Text(s)) == if s == [] then None else Some(Canon(s))
    ensures s != [] ==> (Parse(Text(s)) == Some(s) <==> Increasing(s))
  {
    if s != [] {
      ValuesOfText(s, []);
      assert [] + s == s;
      LastTwice(s);
      CanonFixpoint(s);
    }
  }

  // ---------- the printer and the parser as loops ----------

  method Strcpy(str: array<char>, p: nat, s: string)
    requires p + |s| < str.Length
    modifies str
    ensures str[..p + |s|] == old(str[..p]) + s && str[p + |s|] == '\0'
  {
    for i := 0 to |s|
      invariant str[..p + i] == old(str[..p]) + s[..i]
    {
      str[p + i] := s[i];
      assert str[..p + i + 1] == str[..p + i] + [s[i]];
      assert s[..i + 1] == s[..i] + [s[i]];
    }
    assert s[..|s|] == s;
    str[p + |s|] := '\0';
  }

  method RoomFor(val: seq<Word>) returns (len: nat)
    ensures len == TotalRoom(val)
  {
    len := 0;
    for i := 0 to |val|
      invariant len + TotalRoom(val[i..]) == TotalRoom(val)
    {
      len := len + Room(val[i]);
      assert val[i..][1..] == val[i + 1..];
    }
  }

  /** What is still to be printed before value i. */
  function Remaining(s: seq<Word>, i: nat): string
    requires i <= |s|
  {
    if i == 0 then Text(s) else if i == |s| then "" else " " + Text(s[i..])
  }

  lemma RemainingStep(s: seq<Word>, i: nat)
    requires i < |s|
    ensures Remaining(s, i) == (if i == 0 then "" else " ") + Name(s[i]) + Remaining(s, i + 1)
  {
    assert s[i..][1..] == s[i + 1..];
    assert s[0..] == s;
    if i + 1 == |s| {
      assert Text(s[i..]) == Name(s[i]);
    }
  }

  /** With i values printed into n characters, the rest and a terminator still fit. */
  predicate RoomLeft(s: seq<Word>, i: nat, n: nat, len: nat) {
    i <= |s| && n < len && if i == 0 then n == 0 && TotalRoom(s) == len else n + 1 + TotalRoom(s[i..]) <= len
  }

  lemma RoomStep(s: seq<Word>, i: nat, n: nat, len: nat)
    requires i < |s| && RoomLeft(s, i, n, len)
    ensures RoomLeft(s, i + 1, n + (if i == 0 then 0 else 1) + |Name(s[i])|, len)
  {
    NameFits(s[i]);
    assert s[i..][1..] == s[i + 1..] && s[0..] == s;
  }

  lemma PrintStep(before: string, s: seq<Word>, i: nat, len: nat)
    requires i < |s| && RoomLeft(s, i, |before|, len) && before + Remaining(s, i) == Text(s)
    ensures var piece := (if i == 0 then "" else " ") + Name(s[i]);
      RoomLeft(s, i + 1, |before| + |piece|, len) && before + piece + Remaining(s, i + 1) == Text(s)
  {
    RoomStep(s, i, |before|, len);
    RemainingStep(s, i);
    AppendAssoc(before, (if i == 0 then "" else " ") + Name(s[i]), Remaining(s, i + 1));
  }

  method PrintOne(str: array<char>, p: nat, sep: string, v: Word) returns (q: nat)
    requires |sep| <= 1 && p + |sep| + |Name(v)| < str.Length
    modifies str
    ensures q == p + |sep| + |Name(v)| && str[..q] == old(str[..p]) + (sep + Name(v)) && str[q] == '\0'
  {
    q := p;
    if sep != "" {
      Strcpy(str, q, sep);
      q := q + 1;
    }
    assert str[..q] == old(str[..p]) + sep;
    Strcpy(str, q, Name(v));
    q := q + |Name(v)|;
    AppendAssoc(old(str[..p]), sep, Name(v));
  }

  /** The communities as a terminated string, in a buffer sized beforehand. */
  method Com2Str(com: Communities) returns (str: array<char>, n: nat)
    ensures fresh(str) && n < str.Length && str[..n] == Text(com.val) && str[n] == '\0'
  {
    var val := com.val;
    if |val| == 0 {
      str := new char[1](_ => '\0');
      return str, 0;
    }
    var len := RoomFor(val);
    TextFits(val);
    str := new char[len](_ => '\0');
    n := 0;
    for i := 0 to |val|
      invariant fresh(str) && str.Length == len && RoomLeft(val, i, n, len)
      invariant str[n] == '\0' && str[..n] + Remaining(val, i) == Text(val)
    {
      PrintStep(str[..n], val, i, len);
      n := PrintOne(str, n, if i == 0 then "" else " ", val[i]);
    }
    assert str[..n] + "" == str[..n];
  }

  /** Reading digits and a separator, one character at a time. */
  method ScanLoop(t: string) returns (r: Token)
    requires t != "" && IsDigit(t[0])
    ensures r == Next(t)
  {
    NextNumber(t);
    var p, sep, digit := t, false, false;
    var high: Word, low: Word := 0, 0;
    while p != "" && (IsDigit(p[0]) || p[0] == ':')
      invariant Scan(p, sep, digit, high, low) == Next(t)
      decreases |p|
    {
      if p[0] == ':' {
        if sep {
          return Bad;
        }
        sep, digit := true, false;
        high, low := low * 0x10000 % 0x1_0000_0000, 0;
      } else {
        digit := true;
        low := Shift(low, DigitValue(p[0]));
      }
      p := p[1..];
    }
    r := if digit then Value((high + low) % 0x1_0000_0000, p) else Bad;
  }

  method GetToken(buf: string) returns (r: Token)
    ensures r == Next(buf)
  {
    var p := buf;
    while p != "" && IsSpace(p[0])
      invariant SkipSpace(p) == SkipSpace(buf)
      decreases |p|
    {
      p := p[1..];
    }
    if p == "" {
      return End;
    }
    assert Next(p) == Next(buf);
    if IsAlpha(p[0]) {
      if Starts(p, "internet") {
        return Value(INTERNET, p[8..]);
      }
      if Starts(p, "no-export") {
        return Value(NO_EXPORT, p[9..]);
      }
      if Starts(p, "no-advertise") {
        return Value(NO_ADVERTISE, p[12..]);
      }
      if Starts(p, "local-AS") {
        return Value(LOCAL_AS, p[8..]);
      }
      return Bad;
    }
    if IsDigit(p[0]) {
      r := ScanLoop(p);
    } else {
      r := Bad;
    }
  }

  /** The communities of a text; null when it holds none or something else. */
  method Str2Com(text: string) returns (r: Communities?)
    ensures r == null <==> Parse(text) == None
    ensures r != null ==> fresh(r) && r.val == Parse(text).value
  {
    var com := new Communities([]);
    var str := text;
    var token: Option<Word> := None;
    while true
      invariant fresh(com) && Values(str, com.val) == Values(text, [])
      invariant token == if com.val == [] then None else Some(Last(com.val))
      decreases |str|
    {
      var t := GetToken(str);
      if t == Bad {
        return null;
      }
      if t == End {
        if token == None {
          return null;
        }
        com.AddVal(token.value);
        break;
      }
      token := Some(t.v);
      com.AddVal(t.v);
      str := t.rest;
    }
    r := com.UniqSort();
  }
}
