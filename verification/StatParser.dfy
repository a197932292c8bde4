/** Reading /proc/pid/stat: the daemon's parser (src/proc_scanner.c) and the dashboard's (dashboard.py), on
    every line of the form the kernel prints. */
module StatParsers {
  import opened MachineInts
  import opened Options
  import opened ProcScanners

  // ---------- library functions ----------

  /** The position of the first `c`, -1 if there is none. */
  function FirstOf(s: string, c: char): (i: int)
    ensures -1 <= i < |s|
  {
    if s == "" then -1
    else if s[0] == c then 0
    else
      var i := FirstOf(s[1..], c);
      if i < 0 then -1 else i + 1
  }

  /** The position of the last `c`, -1 if there is none. */
  function LastOf(s: string, c: char): (i: int)
    ensures -1 <= i < |s|
  {
    if s == "" then -1 else if s[|s| - 1] == c then |s| - 1 else LastOf(s[..|s| - 1], c)
  }

  predicate IsDigit(c: char) { '0' <= c <= '9' }

  /** `isspace` in the C locale. */
  predicate IsSpace(c: char) { c == ' ' || '\t' <= c <= '\r' }

  predicate AllDigits(s: string) { forall i :: 0 <= i < |s| ==> IsDigit(s[i]) }

  function Value(s: string): nat
    requires AllDigits(s)
  {
    if s == "" then 0 else Value(s[..|s| - 1]) * 10 + (s[|s| - 1] as int - '0' as int)
  }

  /** How many digits `s` starts with. */
  function Span(s: string): (n: nat)
    ensures n <= |s| && AllDigits(s[..n])
  {
    if s == "" || !IsDigit(s[0]) then 0
    else
      var n := 1 + Span(s[1..]);
      assert s[..n] == [s[0]] + s[1..][..n - 1];
      n
  }

  function SkipBlank(s: string): string {
    if s != "" && IsSpace(s[0]) then SkipBlank(s[1..]) else s
  }

  /** `strtoul(s, &next, 10)`: the value, saturated at the largest 64-bit number or negated modulo 2^64, and
      where the scan stopped; without a digit the value is 0 and nothing is consumed. */
  function Strtoul(s: string): (u64, string) {
    var t := SkipBlank(s);
    var signed := t != "" && (t[0] == '-' || t[0] == '+');
    var d := if signed then t[1..] else t;
    var n := Span(d);
    if n == 0 then (0, s)
    else
      var v := Value(d[..n]);
      (if v >= TWO_64 then TWO_64 - 1 else if signed && t[0] == '-' then Sub64(0, v) else v, d[n..])
  }

  const LINE_SIZE: nat := 512

  /** `fgets` into a buffer of LINE_SIZE: the first line with its newline, cut after LINE_SIZE - 1 characters. */
  function Fgets(file: string): string {
    var n := FirstOf(file, '\n');
    var line := if n < 0 then file else file[..n + 1];
    if |line| < LINE_SIZE then line else line[..LINE_SIZE - 1]
  }

  // ---------- the daemon's parser ----------

  function SkipWord(s: string): string {
    if s != "" && s[0] != ' ' then SkipWord(s[1..]) else s
  }

  function SkipSpaces(s: string): string {
    if s != "" && s[0] == ' ' then SkipSpaces(s[1..]) else s
  }

  function Skip(s: string, count: nat): string
    decreases count, s
  {
    if count == 0 then s else Skip(SkipSpaces(SkipWord(s)), count - 1)
  }

  const COMM_MAX: nat := 15

  /** Fields between the name and utime. */
  const UTIME: nat := 11

  function Truncated(comm: string): string {
    if |comm| <= COMM_MAX then comm else comm[..COMM_MAX]
  }

  /** The name and tick counts, given the name and what follows ") ": utime is twelve fields on. */
  function Decoded(comm: string, rest: string): Stat {
    var (utime, next) := Strtoul(Skip(rest, UTIME));
    Stat(Truncated(comm), utime, Strtoul(next).0)
  }

  /** The daemon's parse of a non-empty buffer. Where a parenthesis is missing, the closing one comes first,
      or nothing follows it, the model answers None. */
  function ParseStat(line: string): Option<Stat> {
    var s, e := FirstOf(line, '('), LastOf(line, ')');
    if s < 0 || e <= s || e + 2 > |line| then None else Some(Decoded(line[s + 1..e], line[e + 2..]))
  }

  /** `skip_fields`, scanning in place. */
  method SkipFields(line: string, p: nat, count: nat) returns (r: nat)
    requires p <= |line|
    ensures r <= |line| && line[r..] == Skip(line[p..], count)
  {
    r := p;
    for i := 0 to count
      invariant r <= |line| && Skip(line[r..], count - i) == Skip(line[p..], count)
    {
      ghost var start := r;
      while r < |line| && line[r] != ' '
        invariant r <= |line| && SkipWord(line[r..]) == SkipWord(line[start..])
      {
        assert line[r..][1..] == line[r + 1..];
        r := r + 1;
      }
      assert SkipWord(line[r..]) == line[r..];
      ghost var mid := r;
      while r < |line| && line[r] == ' '
        invariant r <= |line| && SkipSpaces(line[r..]) == SkipSpaces(line[mid..])
      {
        assert line[r..][1..] == line[r + 1..];
        r := r + 1;
      }
      assert SkipSpaces(line[r..]) == line[r..];
    }
  }

  method ReadProcStat(file: string) returns (r: Option<Stat>)
    ensures r == if file == "" then None else ParseStat(Fgets(file))
  {
    if file == "" { return None; }
    var line := Fgets(file);
    var s, e := FirstOf(line, '('), LastOf(line, ')');
    if s < 0 || e <= s || e + 2 > |line| { return None; }
    var stat := Decode(line, s + 1, e);
    r := Some(stat);
  }

  /** The name between the parentheses, and the two counts behind them. */
  method Decode(line: string, from: nat, to: nat) returns (stat: Stat)
    requires from <= to && to + 2 <= |line|
    ensures stat == Decoded(line[from..to], line[to + 2..])
  {
    var comm := line[from..to];
    if |comm| > COMM_MAX { comm := comm[..COMM_MAX]; }
    var rest := SkipFields(line, to + 2, UTIME);
    var (utime, next) := Strtoul(line[rest..]);
    stat := Stat(comm, utime, Strtoul(next).0);
  }

  // ---------- the dashboard's parser ----------

  /** `str.isspace` on ASCII. */
  predicate IsPySpace(c: char) { IsSpace(c) || 28 as char <= c <= 31 as char }

  function WordEnd(s: string): (n: nat)
    ensures n <= |s|
  {
    if s == "" || IsPySpace(s[0]) then 0 else 1 + WordEnd(s[1..])
  }

  /** `s.split()`. */
  function Split(s: string): seq<string>
    decreases |s|
  {
    if s == "" then []
    else if IsPySpace(s[0]) then Split(s[1..])
    else [s[..WordEnd(s)]] + Split(s[WordEnd(s)..])
  }

  /** `int(s)` on a word: an optional sign and digits. */
  function PyInt(s: string): Option<int> {
    var signed := s != "" && (s[0] == '-' || s[0] == '+');
    var d := if signed then s[1..] else s;
    if d == "" || !AllDigits(d) then None
    else if signed && s[0] == '-' then Some(-(Value(d) as int))
    else Some(Value(d))
  }

  function DashDecoded(comm: string, rest: seq<string>): Option<(string, int)> {
    if |rest| <= UTIME + 1 then None
    else
      var u, v := PyInt(rest[UTIME]), PyInt(rest[UTIME + 1]);
      if u.None? || v.None? then None else Some((comm, u.value + v.value))
  }

  /** The slices the dashboard takes: the name, and what follows ") ". */
  function DashCut(file: string): Option<(string, string)> {
    var s, e := FirstOf(file, '('), LastOf(file, ')');
    if s < 0 || e < 0 then None
    else Some((if s < e then file[s + 1..e] else "", if e + 2 <= |file| then file[e + 2..] else ""))
  }

  /** The dashboard's `read_proc_stat`: the name and the tick total, None where Python raises. */
  function DashStat(file: string): Option<(string, int)> {
    var cut := DashCut(file);
    if cut.None? then None else DashDecoded(cut.value.0, Split(cut.value.1))
  }

  // ---------- what the kernel prints ----------

  function Dec(n: nat): string {
    if n < 10 then [('0' as int + n) as char] else Dec(n / 10) + [('0' as int + n % 10) as char]
  }

  function Joined(words: seq<string>): string {
    if words == [] then "" else if |words| == 1 then words[0] else words[0] + " " + Joined(words[1..])
  }

  /** No space, parenthesis or line break. */
  predicate IsWord(w: string) {
    w != "" && forall i :: 0 <= i < |w| ==> !IsPySpace(w[i]) && w[i] != '(' && w[i] != ')'
  }

  /** A stat line: the pid, the name in parentheses, the state and the numeric fields. */
  predicate IsStat(comm: string, words: seq<string>, utime: u64, stime: u64) {
    && (forall i :: 0 <= i < |comm| ==> comm[i] != '\n')
    && |words| >= UTIME + 2
    && (forall k :: 0 <= k < |words| ==> IsWord(words[k]))
    && words[UTIME] == Dec(utime) && words[UTIME + 1] == Dec(stime)
  }

  function Line(pid: nat, comm: string, rest: string): string {
    Dec(pid) + " (" + comm + ") " + rest
  }

  function Printed(pid: nat, comm: string, words: seq<string>): string {
    Line(pid, comm, Joined(words)) + "\n"
  }

  /** The line through stime fits in the daemon's buffer. */
  predicate FitsBuffer(pid: nat, comm: string, words: seq<string>)
    requires |words| >= UTIME + 2
  {
    |Line(pid, comm, Joined(words[..UTIME + 2]))| <= LINE_SIZE - 1
  }

  // ---------- searching ----------

  lemma {:induction false} FirstAfter(a: string, c: char, b: string)
    requires forall i :: 0 <= i < |a| ==> a[i] != c
    ensures FirstOf(a + [c] + b, c) == |a|
  {
    var s := a + [c] + b;
    if a != "" {
      FirstAfter(a[1..], c, b);
      assert s[1..] == a[1..] + [c] + b;
    }
  }

  lemma {:induction false} LastBefore(a: string, c: char, b: string)
    requires forall i :: 0 <= i < |b| ==> b[i] != c
    ensures LastOf(a + [c] + b, c) == |a|
  {
    var s := a + [c] + b;
    if b != "" {
      LastBefore(a, c, b[..|b| - 1]);
      assert s[..|s| - 1] == a + [c] + b[..|b| - 1];
    }
  }

  // ---------- decimal round trip ----------

  lemma {:induction false} DecRoundTrip(n: nat)
    ensures AllDigits(Dec(n)) && Dec(n) != "" && Value(Dec(n)) == n
  {
    if n < 10 {
      assert Dec(n)[..0] == "";
    } else {
      DecRoundTrip(n / 10);
      assert Dec(n)[..|Dec(n)| - 1] == Dec(n / 10);
    }
  }

  lemma {:induction false} SpanOver(a: string, t: string)
    requires AllDigits(a) && (t == "" || !IsDigit(t[0]))
    ensures Span(a + t) == |a|
  {
    if a != "" {
      SpanOver(a[1..], t);
      assert (a + t)[1..] == a[1..] + t;
    } else {
      assert a + t == t;
    }
  }

  lemma StrtoulOfDec(n: u64, t: string)
    requires t == "" || !IsDigit(t[0])
    ensures Strtoul(Dec(n) + t) == (n, t)
  {
    DecRoundTrip(n);
    SpanOver(Dec(n), t);
    var s := Dec(n) + t;
    assert s[0] == Dec(n)[0] && IsDigit(s[0]);
    assert s[..|Dec(n)|] == Dec(n) && s[|Dec(n)|..] == t;
  }

  lemma StrtoulAfterBlank(n: u64, t: string)
    requires t == "" || !IsDigit(t[0])
    ensures Strtoul(" " + Dec(n) + t) == (n, t)
  {
    StrtoulOfDec(n, t);
    DecRoundTrip(n);
    var s := Dec(n) + t;
    assert s[0] == Dec(n)[0] && IsDigit(s[0]);
    assert " " + Dec(n) + t == " " + s;
    BlankBeforeDigit(s);
  }

  lemma BlankBeforeDigit(s: string)
    requires s != "" && IsDigit(s[0])
    ensures Strtoul(" " + s) == Strtoul(s)
  {
    assert (" " + s)[1..] == s && SkipBlank(" " + s) == SkipBlank(s) == s;
  }

  lemma PyIntOfDec(n: nat)
    ensures PyInt(Dec(n)) == Some(n)
  {
    DecRoundTrip(n);
    assert IsDigit(Dec(n)[0]);
  }

  // ---------- skipping words ----------

  lemma {:induction false} SkipWordOver(w: string, t: string)
    requires forall i :: 0 <= i < |w| ==> w[i] != ' '
    requires t == "" || t[0] == ' '
    ensures SkipWord(w + t) == t
  {
    if w != "" {
      SkipWordOver(w[1..], t);
      assert (w + t)[1..] == w[1..] + t;
    } else {
      assert w + t == t;
    }
  }

  lemma SkipOne(w: string, t: string)
    requires IsWord(w) && t != "" && t[0] != ' '
    ensures SkipSpaces(SkipWord(w + " " + t)) == t
  {
    assert w + " " + t == w + (" " + t);
    SkipWordOver(w, " " + t);
    assert (" " + t)[1..] == t;
  }

  lemma JoinedFirst(words: seq<string>)
    requires words != [] && IsWord(words[0])
    ensures Joined(words) != "" && Joined(words)[0] == words[0][0]
  {
  }

  /** Skipping `n` of the joined words leaves the rest of them. */
  lemma {:induction false} SkipJoined(words: seq<string>, n: nat, t: string)
    requires n < |words| && forall k :: 0 <= k < |words| ==> IsWord(words[k])
    ensures Skip(Joined(words) + t, n) == Joined(words[n..]) + t
    decreases n
  {
    if n == 0 {
      assert words[0..] == words;
    } else {
      var rest := words[1..];
      JoinedFirst(rest);
      assert Joined(words) + t == words[0] + " " + (Joined(rest) + t);
      SkipOne(words[0], Joined(rest) + t);
      SkipJoined(rest, n - 1, t);
      assert rest[n - 1..] == words[n..];
    }
  }

  // ---------- the daemon's parse of a printed line ----------

  /** What follows the stime field, as much of it as is in the buffer. */
  predicate IsTail(t: string) {
    (t == "" || t[0] == ' ' || t[0] == '\n') && forall i :: 0 <= i < |t| ==> t[i] != ')'
  }

  lemma TwoWords(words: seq<string>, t: string)
    requires |words| == UTIME + 2
    ensures Joined(words[UTIME..]) + t == words[UTIME] + (" " + words[UTIME + 1] + t)
  {
    assert words[UTIME..] == [words[UTIME], words[UTIME + 1]];
    assert words[UTIME..][1..] == [words[UTIME + 1]];
  }

  lemma DecodedPrinted(comm: string, words: seq<string>, utime: u64, stime: u64, t: string)
    requires |words| == UTIME + 2 && IsTail(t)
    requires forall k :: 0 <= k < |words| ==> IsWord(words[k])
    requires words[UTIME] == Dec(utime) && words[UTIME + 1] == Dec(stime)
    ensures Decoded(comm, Joined(words) + t) == Stat(Truncated(comm), utime, stime)
  {
    SkipJoined(words, UTIME, t);
    TwoWords(words, t);
    TwoNumbers(utime, stime, t);
  }

  lemma TwoNumbers(utime: u64, stime: u64, t: string)
    requires IsTail(t)
    ensures Strtoul(Dec(utime) + (" " + Dec(stime) + t)) == (utime, " " + Dec(stime) + t)
    ensures Strtoul(" " + Dec(stime) + t) == (stime, t)
  {
    StrtoulOfDec(utime, " " + Dec(stime) + t);
    StrtoulAfterBlank(stime, t);
  }

  lemma {:induction false} NoParenInJoined(words: seq<string>)
    requires forall k :: 0 <= k < |words| ==> IsWord(words[k])
    ensures forall i :: 0 <= i < |Joined(words)| ==> Joined(words)[i] != ')' && Joined(words)[i] != '\n'
  {
    if |words| > 1 { NoParenInJoined(words[1..]); }
  }

  lemma NoParenInDec(n: nat)
    ensures forall i :: 0 <= i < |Dec(n)| ==> IsDigit(Dec(n)[i])
  {
    DecRoundTrip(n);
  }

  /** Whatever parentheses and spaces the name holds, the first and the last of the line are its own. */
  lemma Parentheses(pid: nat, comm: string, rest: string)
    requires forall i :: 0 <= i < |rest| ==> rest[i] != ')'
    ensures FirstOf(Line(pid, comm, rest), '(') == |Dec(pid)| + 1
    ensures LastOf(Line(pid, comm, rest), ')') == |Dec(pid)| + 2 + |comm|
  {
    var line, open, close := Line(pid, comm, rest), Dec(pid) + " ", Dec(pid) + " (" + comm;
    NoParenInDec(pid);
    assert line == open + ['('] + (comm + ") " + rest);
    FirstAfter(open, '(', comm + ") " + rest);
    assert line == close + [')'] + (" " + rest);
    LastBefore(close, ')', " " + rest);
  }

  lemma LineSlices(pid: nat, comm: string, rest: string)
    ensures var line, s := Line(pid, comm, rest), |Dec(pid)| + 2;
      && |line| == s + |comm| + 2 + |rest| && line[s..s + |comm|] == comm && line[s + |comm| + 2..] == rest
  {
    assert Line(pid, comm, rest) == (Dec(pid) + " (") + (comm + (") " + rest));
  }

  lemma ParseLine(pid: nat, comm: string, rest: string)
    requires forall i :: 0 <= i < |rest| ==> rest[i] != ')'
    ensures ParseStat(Line(pid, comm, rest)) == Some(Decoded(comm, rest))
  {
    Parentheses(pid, comm, rest);
    LineSlices(pid, comm, rest);
  }

  // ---------- the buffer ----------

  lemma FgetsOneLine(s: string)
    requires forall i :: 0 <= i < |s| ==> s[i] != '\n'
    ensures Fgets(s + "\n") == if |s| + 1 < LINE_SIZE then s + "\n" else (s + "\n")[..LINE_SIZE - 1]
  {
    FirstAfter(s, '\n', "");
    assert s + ['\n'] + "" == s + "\n";
  }

  lemma {:induction false} JoinedSplit(words: seq<string>, n: nat)
    requires 0 < n <= |words|
    ensures Joined(words) == Joined(words[..n]) + if n < |words| then " " + Joined(words[n..]) else ""
    decreases n
  {
    if n == |words| {
      assert words[..n] == words;
    } else if n == 1 {
      assert words[..1] == [words[0]];
    } else {
      JoinedSplit(words[1..], n - 1);
      assert words[1..][..n - 1] == words[..n][1..] && words[1..][n - 1..] == words[n..];
    }
  }

  /** What the buffer holds of a printed line that fits through stime. */
  lemma BufferOf(pid: nat, comm: string, words: seq<string>, utime: u64, stime: u64) returns (t: string)
    requires IsStat(comm, words, utime, stime) && FitsBuffer(pid, comm, words)
    ensures IsTail(t) && Fgets(Printed(pid, comm, words)) == Line(pid, comm, Joined(words[..UTIME + 2]) + t)
  {
    var head := Line(pid, comm, Joined(words[..UTIME + 2]));
    var tail := AfterStime(words);
    PrintedInTwo(pid, comm, words);
    NoBreakInLine(pid, comm, words);
    FgetsOneLine(Line(pid, comm, Joined(words)));
    TailIsTail(words);
    t := tail[..if |head + tail| < LINE_SIZE then |tail| else LINE_SIZE - 1 - |head|];
    TakeBeyond(head, tail, LINE_SIZE - 1);
    LineAppend(pid, comm, Joined(words[..UTIME + 2]), t);
  }

  lemma TakeBeyond(head: string, tail: string, n: nat)
    requires |head| <= n
    ensures |head + tail| <= n ==> head + tail[..|tail|] == head + tail
    ensures |head + tail| >= n ==> (head + tail)[..n] == head + tail[..n - |head|]
  {
  }

  lemma LineAppend(pid: nat, comm: string, rest: string, t: string)
    ensures Line(pid, comm, rest) + t == Line(pid, comm, rest + t)
  {
  }

  function AfterStime(words: seq<string>): string
    requires |words| >= UTIME + 2
  {
    (if UTIME + 2 < |words| then " " + Joined(words[UTIME + 2..]) else "") + "\n"
  }

  lemma PrintedInTwo(pid: nat, comm: string, words: seq<string>)
    requires |words| >= UTIME + 2
    ensures Printed(pid, comm, words) == Line(pid, comm, Joined(words[..UTIME + 2])) + AfterStime(words)
  {
    JoinedSplit(words, UTIME + 2);
  }

  lemma NoBreakInLine(pid: nat, comm: string, words: seq<string>)
    requires forall i :: 0 <= i < |comm| ==> comm[i] != '\n'
    requires forall k :: 0 <= k < |words| ==> IsWord(words[k])
    ensures forall i :: 0 <= i < |Line(pid, comm, Joined(words))| ==> Line(pid, comm, Joined(words))[i] != '\n'
  {
    NoParenInDec(pid);
    NoParenInJoined(words);
  }

  lemma TailIsTail(words: seq<string>)
    requires |words| >= UTIME + 2 && forall k :: 0 <= k < |words| ==> IsWord(words[k])
    ensures forall n :: 0 <= n <= |AfterStime(words)| ==> IsTail(AfterStime(words)[..n])
  {
    NoParenInJoined(words[UTIME + 2..]);
  }

  /** The daemon recovers the first fifteen characters of the name and both tick counts from every printed
      line that fits its buffer through stime, whatever parentheses and spaces the name contains. */
  lemma ParsesWhatIsPrinted(pid: nat, comm: string, words: seq<string>, utime: u64, stime: u64)
    requires IsStat(comm, words, utime, stime) && FitsBuffer(pid, comm, words)
    ensures ParseStat(Fgets(Printed(pid, comm, words))) == Some(Stat(Truncated(comm), utime, stime))
  {
    var t := BufferOf(pid, comm, words, utime, stime);
    var w := words[..UTIME + 2];
    NoParenInJoined(w);
    ParseLine(pid, comm, Joined(w) + t);
    DecodedPrinted(comm, w, utime, stime, t);
  }

  // ---------- the dashboard's parse of a printed line ----------

  lemma {:induction false} WordEndOver(w: string, t: string)
    requires (forall i :: 0 <= i < |w| ==> !IsPySpace(w[i])) && t != "" && IsPySpace(t[0])
    ensures WordEnd(w + t) == |w|
  {
    if w != "" {
      WordEndOver(w[1..], t);
      assert (w + t)[1..] == w[1..] + t;
    } else {
      assert w + t == t;
    }
  }

  lemma SplitFirst(w: string, t: string)
    requires IsWord(w) && t != "" && IsPySpace(t[0])
    ensures Split(w + t) == [w] + Split(t[1..])
  {
    WordEndOver(w, t);
    assert (w + t)[..|w|] == w && (w + t)[|w|..] == t && (w + t)[0] == w[0];
    assert Split(t) == Split(t[1..]);
  }

  lemma {:induction false} SplitJoined(words: seq<string>)
    requires words != [] && forall k :: 0 <= k < |words| ==> IsWord(words[k])
    ensures Split(Joined(words) + "\n") == words
  {
    if |words| == 1 {
      SplitFirst(words[0], "\n");
    } else {
      var t := " " + (Joined(words[1..]) + "\n");
      assert Joined(words) + "\n" == words[0] + t;
      SplitFirst(words[0], t);
      assert t[1..] == Joined(words[1..]) + "\n";
      SplitJoined(words[1..]);
    }
  }

  /** The dashboard recovers the whole name and the unbounded sum of the ticks from every printed line. */
  lemma DashParsesWhatIsPrinted(pid: nat, comm: string, words: seq<string>, utime: u64, stime: u64)
    requires IsStat(comm, words, utime, stime)
    ensures DashStat(Printed(pid, comm, words)) == Some((comm, utime + stime))
  {
    var rest := Joined(words) + "\n";
    assert Printed(pid, comm, words) == Line(pid, comm, rest);
    NoParenInJoined(words);
    DashLine(pid, comm, rest);
    SplitJoined(words);
    DashDecodedPrinted(comm, words, utime, stime);
  }

  lemma DashLine(pid: nat, comm: string, rest: string)
    requires forall i :: 0 <= i < |rest| ==> rest[i] != ')'
    ensures DashCut(Line(pid, comm, rest)) == Some((comm, rest))
  {
    Parentheses(pid, comm, rest);
    LineSlices(pid, comm, rest);
  }

  lemma DashDecodedPrinted(comm: string, words: seq<string>, utime: u64, stime: u64)
    requires IsStat(comm, words, utime, stime)
    ensures DashDecoded(comm, words) == Some((comm, utime + stime))
  {
    PyIntOfDec(utime);
    PyIntOfDec(stime);
  }

  lemma SumWraps(a: u64, b: u64)
    ensures Add64(a, b) == a + b <==> a + b < TWO_64
  {
    assert Add64(a, b) < TWO_64;
    if a + b >= TWO_64 { assert Add64(a, b) == a + b - TWO_64; }
  }

  /** The two parsers report the same tick total exactly when the sum does not wrap in 64 bits. */
  lemma ParsersAgree(pid: nat, comm: string, words: seq<string>, utime: u64, stime: u64)
      returns (daemon: Stat, dash: (string, int))
    requires IsStat(comm, words, utime, stime) && FitsBuffer(pid, comm, words)
    ensures ParseStat(Fgets(Printed(pid, comm, words))) == Some(daemon)
    ensures DashStat(Printed(pid, comm, words)) == Some(dash)
    ensures TicksOf(daemon) == dash.1 <==> utime + stime < TWO_64
    ensures daemon.comm == Truncated(dash.0)
  {
    ParsesWhatIsPrinted(pid, comm, words, utime, stime);
    DashParsesWhatIsPrinted(pid, comm, words, utime, stime);
    SumWraps(utime, stime);
    daemon, dash := Stat(Truncated(comm), utime, stime), (comm, utime + stime);
  }

  lemma {:induction false} JoinedSize(words: seq<string>, width: nat)
    requires forall k :: 0 <= k < |words| ==> |words[k]| <= width
    ensures |Joined(words)| <= |words| * (width + 1)
  {
    if |words| > 1 {
      JoinedSize(words[1..], width);
      assert |words| * (width + 1) == (width + 1) + (|words| - 1) * (width + 1);
    }
  }

  /** With a pid of up to ten digits, a name of up to 64 characters and fields of up to 21, the line fits. */
  lemma KernelLinesFit(pid: nat, comm: string, words: seq<string>, utime: u64, stime: u64)
    requires IsStat(comm, words, utime, stime)
    requires |Dec(pid)| <= 10 && |comm| <= 64 && forall k :: 0 <= k < |words| ==> |words[k]| <= 21
    ensures FitsBuffer(pid, comm, words)
  {
    JoinedSize(words[..UTIME + 2], 21);
  }
}
