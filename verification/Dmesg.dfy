/** The kernel log as text, and how ecr.sh reads results back from it by name. */
module Dmesg {
  import opened Records

  // ---- Text of the records ----

  /** The digits that `%lu` prints. */
  function Decimal(n: nat): (s: string)
    ensures |s| > 0 && forall i :: 0 <= i < |s| ==> '0' <= s[i] <= '9'
  {
    if n < 10 then [('0' as int + n) as char]
    else Decimal(n / 10) + [('0' as int + n % 10) as char]
  }

  /** The number that shell arithmetic reads from a string of digits. */
  function Number(s: string): int {
    if s == [] then 0 else 10 * Number(s[..|s| - 1]) + (s[|s| - 1] as int - '0' as int)
  }

  lemma {:induction false} NumberOfDecimal(n: nat)
    ensures Number(Decimal(n)) == n
  {
    if n >= 10 {
      NumberOfDecimal(n / 10);
      assert Decimal(n)[..|Decimal(n)| - 1] == Decimal(n / 10);
    } else {
      assert Decimal(n)[..0] == [];
    }
  }

  const NOP := "NOP_"
  const WALL := "WALL_"

  function Text(r: Record): string {
    match r
    case Label(name) => NOP + name + ": "
    case Value(n) => Decimal(n)
    case Zero(name) => NOP + name + ": 0"
    case Wall(name, nsec) => WALL + name + (": " + Decimal(nsec))
    case Note(text) => text
  }

  /** One line of dmesg output. */
  function Line(stamp: string, r: Record): string {
    "[" + stamp + "] " + Text(r)
  }

  /** dmesg, from the module's insertion on. */
  function Show(stamps: seq<string>, log: seq<Record>): (lines: seq<string>)
    requires |stamps| == |log|
    ensures |lines| == |log| && forall i :: 0 <= i < |log| ==> lines[i] == Line(stamps[i], log[i])
  {
    seq(|log|, i requires 0 <= i < |log| => Line(stamps[i], log[i]))
  }

  // ---- The shell commands ----

  predicate OccursAt(s: string, t: string, i: int) {
    0 <= i && i + |t| <= |s| && s[i..i + |t|] == t
  }

  /** grep selects the line. Names are letters, digits and underscores, so the pattern is literal. */
  predicate Contains(s: string, t: string) {
    exists i :: 0 <= i <= |s| && OccursAt(s, t, i)
  }

  /** `grep key | tail -1`: the last line selected, or -1. */
  function LastLine(lines: seq<string>, key: string): (i: int)
    ensures -1 <= i < |lines|
  {
    if lines == [] then -1
    else if Contains(lines[|lines| - 1], key) then |lines| - 1
    else LastLine(lines[..|lines| - 1], key)
  }

  /** The last place below `n` where `sep` occurs, or -1. */
  function LastAt(s: string, sep: string, n: nat): (i: int)
    ensures i == -1 || (0 <= i < n && OccursAt(s, sep, i))
    ensures forall j :: i < j < n ==> !OccursAt(s, sep, j)
  {
    if n == 0 then -1 else if OccursAt(s, sep, n - 1) then n - 1 else LastAt(s, sep, n - 1)
  }

  /** `${s##*sep}` */
  function AfterLast(s: string, sep: string): string {
    var i := LastAt(s, sep, |s| + 1);
    if i < 0 then s else s[i + |sep|..]
  }

  function Key(tag: string, name: string): string { tag + name + ":" }

  /** `nop_parse`: the last word of the line after the last line that holds the key. */
  function NopParse(lines: seq<string>, name: string): string {
    var i := LastLine(lines, Key(NOP, name));
    if i < 0 then ""
    else AfterLast(lines[if i + 1 < |lines| then i + 1 else i], " ")
  }

  /** `wall_parse`: what follows the last ": " of the last line that holds the key. */
  function WallParse(lines: seq<string>, name: string): string {
    var i := LastLine(lines, Key(WALL, name));
    if i < 0 then "" else AfterLast(lines[i], ": ")
  }

  // ---- Names and messages that cannot be mistaken for one another ----

  predicate GoodName(name: string) {
    ':' !in name && !Contains(name, NOP) && !Contains(name, WALL)
  }

  predicate GoodText(text: string) {
    !Contains(text, NOP) && !Contains(text, WALL)
  }

  predicate GoodRecord(r: Record) {
    match r
    case Label(name) => GoodName(name)
    case Zero(name) => GoodName(name)
    case Wall(name, _) => GoodName(name)
    case Note(text) => GoodText(text)
    case Value(_) => true
  }

  /** A dmesg time stamp: digits, a point, and padding. */
  predicate GoodStamp(stamp: string) {
    forall i :: 0 <= i < |stamp| ==> stamp[i] == ' ' || stamp[i] == '.' || '0' <= stamp[i] <= '9'
  }

  predicate IsTag(tag: string) { tag == NOP || tag == WALL }

  lemma OccurrenceChar(s: string, t: string, i: int, k: nat)
    requires OccursAt(s, t, i) && k < |t|
    ensures s[i + k] == t[k]
  {
    assert s[i + k] == s[i..i + |t|][k];
  }

  /** Where a tag can occur in a line: only where its first letter stands in front of a name, if there. */
  lemma TagOnlyAt(a: string, y: string, b: string, tag: string, p: int, i: int)
    requires IsTag(tag) && !Contains(y, tag)
    requires forall k :: 0 <= k < |a| && a[k] == tag[0] ==> k == p
    requires b == "" || b[0] == ':'
    requires forall k :: 0 <= k < |b| ==> b[k] != tag[0]
    requires OccursAt(a + y + b, tag, i)
    ensures i == p
  {
    var s := a + y + b;
    OccurrenceChar(s, tag, i, 0);
    var j := i - |a|;
    if 0 <= j && j + |tag| <= |y| {
      assert y[j..j + |tag|] == s[i..i + |tag|];
      assert OccursAt(y, tag, j);
    } else if 0 <= j < |y| {
      OccurrenceChar(s, tag, i, |y| - j);
    }
  }

  lemma {:induction false} SameName(x: string, y: string, rest: string)
    requires ':' !in x && ':' !in y && x + ":" <= y + ":" + rest
    ensures x == y
  {
    var s, t := x + ":", y + ":" + rest;
    assert s[0] == t[0] && s[1..] <= t[1..];
    if x != "" && y != "" {
      assert s[1..] == x[1..] + ":" && t[1..] == y[1..] + ":" + rest;
      SameName(x[1..], y[1..], rest);
      assert x == [x[0]] + x[1..] && y == [y[0]] + y[1..];
    }
  }

  /** A line made of a prefix, a tagged name and a value holds the key of that name and no other. */
  lemma TaggedLine(a: string, tag: string, y: string, b: string, x: string)
    requires IsTag(tag) && GoodName(x) && GoodName(y)
    requires forall k :: 0 <= k < |a| ==> a[k] != tag[0]
    requires 0 < |b| && b[0] == ':' && forall k :: 0 <= k < |b| ==> b[k] != tag[0]
    ensures Contains(a + tag + y + b, Key(tag, x)) <==> x == y
  {
    var s, key := a + tag + y + b, Key(tag, x);
    if x == y {
      assert s == a + key + b[1..];
      assert OccursAt(s, key, |a|);
    }
    if Contains(s, key) {
      var i :| 0 <= i <= |s| && OccursAt(s, key, i);
      KeyHoldsTag(s, tag, x, i);
      assert (a + tag) + y + b == s;
      TagOnlyAt(a + tag, y, b, tag, |a|, i);
      KeyInFront(a, tag, y, b, x);
    }
  }

  lemma KeyHoldsTag(s: string, tag: string, x: string, i: int)
    requires OccursAt(s, Key(tag, x), i)
    ensures OccursAt(s, tag, i)
  {
    assert s[i..i + |tag|] == s[i..i + |Key(tag, x)|][..|tag|];
  }

  /** If the key stands where the line's own tag does, the names are the same. */
  lemma KeyInFront(a: string, tag: string, y: string, b: string, x: string)
    requires OccursAt(a + tag + y + b, Key(tag, x), |a|)
    requires ':' !in x && ':' !in y && 0 < |b| && b[0] == ':'
    ensures x == y
  {
    var s, key, p := a + tag + y + b, Key(tag, x), |a| + |tag|;
    assert s[p..] == y + b && b == ":" + b[1..];
    assert y + b == y + ":" + b[1..];
    assert key[|tag|..] == x + ":";
    assert s[p..p + |x| + 1] == s[|a|..|a| + |key|][|tag|..];
    assert x + ":" == s[p..][..|x| + 1];
    SameName(x, y, b[1..]);
  }

  /** A line in which the tag's first letter is absent outside a clean name holds no key of that tag. */
  lemma UntaggedLine(a: string, y: string, b: string, tag: string, x: string)
    requires IsTag(tag) && !Contains(y, tag)
    requires forall k :: 0 <= k < |a| ==> a[k] != tag[0]
    requires b == "" || b[0] == ':'
    requires forall k :: 0 <= k < |b| ==> b[k] != tag[0]
    ensures !Contains(a + y + b, Key(tag, x))
  {
    var s, key := a + y + b, Key(tag, x);
    if Contains(s, key) {
      var i :| 0 <= i <= |s| && OccursAt(s, key, i);
      KeyHoldsTag(s, tag, x, i);
      TagOnlyAt(a, y, b, tag, -1, i);
    }
  }

  lemma DigitsHoldNoTag(s: string, tag: string)
    requires IsTag(tag) && forall i :: 0 <= i < |s| ==> '0' <= s[i] <= '9'
    ensures !Contains(s, tag)
  {
    if Contains(s, tag) {
      var i :| 0 <= i <= |s| && OccursAt(s, tag, i);
      OccurrenceChar(s, tag, i, 0);
    }
  }

  /** What follows the name in a record that has one. */
  function Tail(r: Record): string
    requires r.Label? || r.Zero? || r.Wall?
  {
    match r
    case Label(_) => ": "
    case Zero(_) => ": 0"
    case Wall(_, nsec) => ": " + Decimal(nsec)
  }

  function TagOf(r: Record): string { if r.Wall? then WALL else NOP }

  /** The record carries the tag and the name. */
  predicate Names(r: Record, tag: string, x: string) {
    (r.Label? || r.Zero? || r.Wall?) && tag == TagOf(r) && x == r.name
  }

  /** Neither tag can begin in these characters. */
  predicate NoInitial(s: string) {
    forall k :: 0 <= k < |s| ==> s[k] != 'N' && s[k] != 'W'
  }

  lemma TaggedRecord(a: string, own: string, y: string, b: string, tag: string, x: string)
    requires IsTag(own) && IsTag(tag) && GoodName(x) && GoodName(y)
    requires NoInitial(a) && 0 < |b| && b[0] == ':' && NoInitial(b)
    ensures Contains(a + own + y + b, Key(tag, x)) <==> own == tag && x == y
  {
    if own == tag {
      TaggedLine(a, tag, y, b, x);
    } else {
      UntaggedLine(a + own, y, b, tag, x);
    }
  }

  lemma TaggedText(stamp: string, r: Record)
    requires r.Label? || r.Zero? || r.Wall?
    ensures Line(stamp, r) == "[" + stamp + "] " + TagOf(r) + r.name + Tail(r)
    ensures Tail(r)[0] == ':' && NoInitial(Tail(r))
  {
    assert Text(r) == TagOf(r) + r.name + Tail(r);
    RegroupAll("[" + stamp + "] ", TagOf(r), r.name, Tail(r));
  }

  lemma RegroupAll(p: string, q: string, r: string, s: string)
    ensures p + (q + r + s) == p + q + r + s
  {
  }

  lemma UntaggedText(stamp: string, text: string, tag: string, x: string)
    requires IsTag(tag) && GoodStamp(stamp) && !Contains(text, tag)
    ensures !Contains("[" + stamp + "] " + text, Key(tag, x))
  {
    var a := "[" + stamp + "] ";
    assert a + text + "" == a + text;
    UntaggedLine(a, text, "", tag, x);
  }

  /** The key of a name selects exactly that name's records among all lines of the module. */
  lemma KeySelects(stamp: string, r: Record, tag: string, x: string)
    requires IsTag(tag) && GoodStamp(stamp) && GoodRecord(r) && GoodName(x)
    ensures Contains(Line(stamp, r), Key(tag, x)) <==> Names(r, tag, x)
  {
    if r.Value? {
      DigitsHoldNoTag(Decimal(r.n), tag);
      UntaggedText(stamp, Decimal(r.n), tag, x);
    } else if r.Note? {
      UntaggedText(stamp, r.text, tag, x);
    } else {
      TaggedText(stamp, r);
      TaggedRecord("[" + stamp + "] ", TagOf(r), r.name, Tail(r), tag, x);
    }
  }

  /** Cutting after the last separator leaves what follows it. */
  lemma AfterLastIs(a: string, sep: string, b: string)
    requires forall j :: |a| < j <= |a + sep + b| ==> !OccursAt(a + sep + b, sep, j)
    ensures AfterLast(a + sep + b, sep) == b
  {
    assert OccursAt(a + sep + b, sep, |a|);
  }

  lemma LastWordOfDigits(a: string, b: string)
    requires forall i :: 0 <= i < |b| ==> '0' <= b[i] <= '9'
    ensures AfterLast(a + " " + b, " ") == b
  {
    var s := a + " " + b;
    forall j | |a| < j <= |s| ensures !OccursAt(s, " ", j) {
      if OccursAt(s, " ", j) {
        OccurrenceChar(s, " ", j, 0);
      }
    }
    AfterLastIs(a, " ", b);
  }

  lemma LastFieldOfDigits(a: string, b: string)
    requires forall i :: 0 <= i < |b| ==> '0' <= b[i] <= '9'
    ensures AfterLast(a + ": " + b, ": ") == b
  {
    var s := a + ": " + b;
    forall j | |a| < j <= |s| ensures !OccursAt(s, ": ", j) {
      if OccursAt(s, ": ", j) {
        OccurrenceChar(s, ": ", j, 0);
      }
    }
    AfterLastIs(a, ": ", b);
  }

  // ---- Reading a log by name ----

  /** The last record of a name in a NOP run, or -1. */
  function LastNop(log: seq<Record>, x: string): (i: int)
    ensures -1 <= i < |log|
  {
    if log == [] then -1
    else if log[|log| - 1] == Label(x) || log[|log| - 1] == Zero(x) then |log| - 1
    else LastNop(log[..|log| - 1], x)
  }

  function LastWall(log: seq<Record>, x: string): (i: int)
    ensures -1 <= i < |log|
    ensures i >= 0 ==> log[i].Wall? && log[i].name == x
    ensures forall j :: i < j < |log| ==> !(log[j].Wall? && log[j].name == x)
  {
    if log == [] then -1
    else if log[|log| - 1].Wall? && log[|log| - 1].name == x then |log| - 1
    else LastWall(log[..|log| - 1], x)
  }

  ghost predicate Readable(stamps: seq<string>, log: seq<Record>) {
    && |stamps| == |log|
    && (forall i :: 0 <= i < |log| ==> GoodRecord(log[i]))
    && (forall i :: 0 <= i < |stamps| ==> GoodStamp(stamps[i]))
  }

  /** The last position of a true, or -1. */
  function LastTrue(hits: seq<bool>): (i: int)
    ensures -1 <= i < |hits|
  {
    if hits == [] then -1 else if hits[|hits| - 1] then |hits| - 1 else LastTrue(hits[..|hits| - 1])
  }

  lemma {:induction false} LastLineIsLastTrue(lines: seq<string>, key: string, hits: seq<bool>)
    requires |hits| == |lines| && forall i :: 0 <= i < |lines| ==> (Contains(lines[i], key) <==> hits[i])
    ensures LastLine(lines, key) == LastTrue(hits)
  {
    if lines != [] {
      LastLineIsLastTrue(lines[..|lines| - 1], key, hits[..|lines| - 1]);
    }
  }

  function Hits(log: seq<Record>, tag: string, x: string): (hits: seq<bool>)
    ensures |hits| == |log| && forall i :: 0 <= i < |log| ==> (hits[i] <==> Names(log[i], tag, x))
  {
    seq(|log|, i requires 0 <= i < |log| => Names(log[i], tag, x))
  }

  lemma {:induction false} LastNopIsLastTrue(log: seq<Record>, x: string)
    ensures LastNop(log, x) == LastTrue(Hits(log, NOP, x))
  {
    assert NOP != WALL;
    if log != [] {
      var n := |log| - 1;
      LastNopIsLastTrue(log[..n], x);
      assert Hits(log, NOP, x)[..n] == Hits(log[..n], NOP, x);
    }
  }

  lemma {:induction false} LastWallIsLastTrue(log: seq<Record>, x: string)
    ensures LastWall(log, x) == LastTrue(Hits(log, WALL, x))
  {
    assert NOP != WALL;
    if log != [] {
      var n := |log| - 1;
      LastWallIsLastTrue(log[..n], x);
      assert Hits(log, WALL, x)[..n] == Hits(log[..n], WALL, x);
    }
  }

  /** Grepping for a name finds the last of its records. */
  lemma GrepFinds(stamps: seq<string>, log: seq<Record>, tag: string, x: string)
    requires Readable(stamps, log) && GoodName(x) && IsTag(tag)
    ensures LastLine(Show(stamps, log), Key(tag, x)) == LastTrue(Hits(log, tag, x))
  {
    var lines, hits := Show(stamps, log), Hits(log, tag, x);
    forall i | 0 <= i < |lines| ensures Contains(lines[i], Key(tag, x)) <==> hits[i] {
      KeySelects(stamps[i], log[i], tag, x);
    }
    LastLineIsLastTrue(lines, Key(tag, x), hits);
  }

  lemma WallField(stamp: string, x: string, nsec: nat)
    ensures AfterLast(Line(stamp, Wall(x, nsec)), ": ") == Decimal(nsec)
  {
    Regroup("[" + stamp + "] ", WALL + x, ": ", Decimal(nsec));
    LastFieldOfDigits("[" + stamp + "] " + (WALL + x), Decimal(nsec));
  }

  lemma Regroup(p: string, q: string, r: string, s: string)
    ensures p + (q + (r + s)) == (p + q) + r + s
  {
  }

  /** `wall_parse` returns the value of the latest wall-clock entry of that name, measured or not. */
  lemma WallParseReturnsLatest(stamps: seq<string>, log: seq<Record>, x: string)
    requires Readable(stamps, log) && GoodName(x)
    ensures var i := LastWall(log, x);
            WallParse(Show(stamps, log), x) == if i < 0 then "" else Decimal(log[i].nsec)
  {
    GrepFinds(stamps, log, WALL, x);
    LastWallIsLastTrue(log, x);
    var i := LastWall(log, x);
    if i >= 0 {
      WallField(stamps[i], x, log[i].nsec);
    }
  }

  /** The last word of a record's text. */
  function LastWord(r: Record): string {
    match r
    case Value(n) => Decimal(n)
    case Zero(_) => "0"
    case Label(_) => ""
    case Wall(_, nsec) => Decimal(nsec)
    case Note(text) => AfterLast(text, " ")
  }

  /** What precedes a separating blank does not matter to the last word. */
  lemma LastWordOfTail(a: string, b: string)
    ensures AfterLast(a + " " + b, " ") == AfterLast(b, " ")
  {
    var s := a + " " + b;
    var i := LastAt(b, " ", |b| + 1);
    forall j: nat | j <= |b| ensures OccursAt(s, " ", |a| + 1 + j) <==> OccursAt(b, " ", j) {
      assert j < |b| ==> s[|a| + 1 + j] == b[j];
    }
    assert OccursAt(s, " ", |a|);
    if i < 0 {
      forall j | |a| < j <= |s| ensures !OccursAt(s, " ", j) {
        assert !OccursAt(b, " ", j - |a| - 1);
      }
      AfterLastIs(a, " ", b);
    } else {
      var front, back := s[..|a| + 1 + i], b[i + 1..];
      assert OccursAt(s, " ", |a| + 1 + i);
      assert s == front + " " + back;
      forall j | |front| < j <= |s| ensures !OccursAt(s, " ", j) {
        assert !OccursAt(b, " ", j - |a| - 1);
      }
      AfterLastIs(front, " ", back);
    }
  }

  lemma RegroupBlank(p: string, q: string, t: string)
    ensures p + q + (": " + t) == (p + q + ":") + " " + t
  {
  }

  /** What follows a record's name in its text. */
  lemma LastWordOfTagged(tag: string, x: string, t: string)
    requires forall i :: 0 <= i < |t| ==> '0' <= t[i] <= '9'
    ensures AfterLast(tag + x + (": " + t), " ") == t
  {
    RegroupBlank(tag, x, t);
    LastWordOfDigits(tag + x + ":", t);
  }

  /** Text without a blank is one word. */
  lemma LastWordOfWord(s: string)
    requires ' ' !in s
    ensures AfterLast(s, " ") == s
  {
    var i := LastAt(s, " ", |s| + 1);
    if i >= 0 {
      OccurrenceChar(s, " ", i, 0);
    }
  }

  lemma LastWordOfText(r: Record)
    ensures AfterLast(Text(r), " ") == LastWord(r)
  {
    match r
    case Value(n) => LastWordOfWord(Decimal(n));
    case Zero(x) => assert ": 0" == ": " + "0"; LastWordOfTagged(NOP, x, "0");
    case Label(x) => assert ": " == ": " + ""; LastWordOfTagged(NOP, x, "");
    case Wall(x, nsec) => LastWordOfTagged(WALL, x, Decimal(nsec));
    case Note(_) =>
  }

  lemma LastWordIs(stamp: string, r: Record)
    ensures AfterLast(Line(stamp, r), " ") == LastWord(r)
  {
    assert Line(stamp, r) == ("[" + stamp + "]") + " " + Text(r);
    LastWordOfTail("[" + stamp + "]", Text(r));
    LastWordOfText(r);
  }

  /** The line that `nop_parse` cuts, given the record that its key finds. */
  function Following(log: seq<Record>, i: nat): nat {
    if i + 1 < |log| then i + 1 else i
  }

  lemma NopParseCuts(stamps: seq<string>, log: seq<Record>, x: string, i: int)
    requires |stamps| == |log| && i == LastLine(Show(stamps, log), Key(NOP, x))
    ensures NopParse(Show(stamps, log), x)
         == if i < 0 then "" else AfterLast(Line(stamps[Following(log, i)], log[Following(log, i)]), " ")
  {
  }

  /** `nop_parse` reads the line after the latest entry of that name, whatever that line is. */
  lemma NopParseReadsNext(stamps: seq<string>, log: seq<Record>, x: string)
    requires Readable(stamps, log) && GoodName(x)
    ensures var i := LastNop(log, x);
            && (i < 0 ==> NopParse(Show(stamps, log), x) == "")
            && (i >= 0 ==> NopParse(Show(stamps, log), x) == LastWord(log[Following(log, i)]))
  {
    GrepFinds(stamps, log, NOP, x);
    LastNopIsLastTrue(log, x);
    var i := LastNop(log, x);
    NopParseCuts(stamps, log, x, i);
    if i >= 0 {
      var j := Following(log, i);
      LastWordIs(stamps[j], log[j]);
    }
  }
}
