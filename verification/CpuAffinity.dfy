/** The CPU list syntax of cpu_affinity.h: printing a CPU set as ranges, and parsing one back.
    CPU_SETSIZE is a parameter; a thrown exception is a value of `Parsed`, and so is the counter of a
    range running past the largest int, which C++ leaves undefined. */
module CpuAffinity {
  datatype Parsed<T> = Ok(value: T) | InvalidArgument | OutOfRange | Overflow

  const INT_MAX := 0x7fff_ffff

  // ---------------------------------------------------------------- numbers

  predicate IsDigit(c: char) { '0' <= c <= '9' }

  predicate IsSpace(c: char) { c == ' ' || '\t' <= c <= '\r' }

  predicate AllDigits(s: string) { forall i :: 0 <= i < |s| ==> IsDigit(s[i]) }

  function DigitChar(d: nat): char
    requires d < 10
  {
    '0' + d as char
  }

  function Decimal(n: nat): (s: string)
    ensures s != "" && AllDigits(s)
  {
    if n < 10 then [DigitChar(n)] else Decimal(n / 10) + [DigitChar(n % 10)]
  }

  /** `std::to_string` */
  function ToString(n: int): (s: string)
    ensures s != "" && (n >= 0 ==> AllDigits(s))
  {
    if n < 0 then "-" + Decimal(-n) else Decimal(n)
  }

  function Value(s: string): nat
    requires AllDigits(s)
  {
    if s == "" then 0 else Value(s[..|s| - 1]) * 10 + (s[|s| - 1] as int - '0' as int)
  }

  function SkipSpace(s: string): string {
    if s != "" && IsSpace(s[0]) then SkipSpace(s[1..]) else s
  }

  function TakeDigits(s: string): (d: string)
    ensures AllDigits(d)
  {
    if s != "" && IsDigit(s[0]) then [s[0]] + TakeDigits(s[1..]) else ""
  }

  /** `std::stoi`: white space, an optional sign, and as many digits as follow. */
  function Stoi(s: string): (r: Parsed<int>)
    ensures r.Ok? ==> -INT_MAX - 1 <= r.value <= INT_MAX
  {
    var s := SkipSpace(s);
    var signed := s != "" && (s[0] == '+' || s[0] == '-');
    var d := TakeDigits(if signed then s[1..] else s);
    if d == "" then InvalidArgument
    else
      var v: int := Value(d);
      var n := if signed && s[0] == '-' then -v else v;
      if -INT_MAX - 1 <= n <= INT_MAX then Ok(n) else OutOfRange
  }

  lemma {:induction false} ValueOfDecimal(n: nat)
    ensures Value(Decimal(n)) == n
  {
    var s := Decimal(n);
    if n < 10 {
      assert s[..|s| - 1] == "";
    } else {
      ValueOfDecimal(n / 10);
      assert s[..|s| - 1] == Decimal(n / 10);
    }
  }

  lemma {:induction false} TakeAllDigits(d: string)
    requires AllDigits(d)
    ensures TakeDigits(d) == d
  {
    if d != "" { TakeAllDigits(d[1..]); }
  }

  lemma StoiOfToString(n: nat)
    requires n <= INT_MAX
    ensures Stoi(ToString(n)) == Ok(n)
  {
    var s := ToString(n);
    ValueOfDecimal(n);
    TakeAllDigits(s);
    assert IsDigit(s[0]);
  }

  /** Tab, line feed, vertical tab, form feed, carriage return and blank. */
  predicate IsBlank(c: char) { c as int in {9, 10, 11, 12, 13, 32} }

  predicate AllSpace(s: string) { forall i :: 0 <= i < |s| ==> IsBlank(s[i]) }

  lemma {:induction false} SkipAllSpace(space: string, rest: string)
    requires AllSpace(space) && (rest == "" || !IsBlank(rest[0]))
    ensures SkipSpace(space + rest) == rest
  {
    if space == "" {
      assert space + rest == rest;
    } else {
      assert (space + rest)[1..] == space[1..] + rest;
      SkipAllSpace(space[1..], rest);
    }
  }

  lemma {:induction false} TakeUpTo(d: string, rest: string)
    requires AllDigits(d) && (rest == "" || !IsDigit(rest[0]))
    ensures TakeDigits(d + rest) == d
  {
    if d == "" {
      assert d + rest == rest;
    } else {
      assert (d + rest)[1..] == d[1..] + rest;
      TakeUpTo(d[1..], rest);
    }
  }

  lemma NoBlankFirst(sign: string, d: string, rest: string)
    requires sign in {"", "+", "-"} && AllDigits(d)
    requires d == "" && sign == "" ==> rest == "" || (!IsBlank(rest[0]) && rest[0] != '+' && rest[0] != '-')
    ensures var s := sign + d + rest;
            && (s == "" || !IsBlank(s[0]))
            && (sign == "" ==> s == d + rest && (s == "" || (s[0] != '+' && s[0] != '-')))
            && (sign != "" ==> s[0] == sign[0] && s[1..] == d + rest)
  {
    var s := sign + d + rest;
    if sign == "" { assert s == d + rest; } else { assert s[1..] == d + rest; }
  }

  /** The grammar of a number: white space, a sign or none, digits, and then anything that is no digit.
      It reads as its value where that is an int; without a digit it is refused. */
  lemma StoiReads(space: string, sign: string, d: string, rest: string)
    requires AllSpace(space) && sign in {"", "+", "-"} && AllDigits(d) && (rest == "" || !IsDigit(rest[0]))
    requires d == "" && sign == "" ==> rest == "" || (!IsBlank(rest[0]) && rest[0] != '+' && rest[0] != '-')
    ensures var n: int := Value(d);
            var v := if sign == "-" then -n else n;
            Stoi(space + sign + d + rest)
            == if d == "" then InvalidArgument
               else if -0x8000_0000 <= v <= 0x7fff_ffff then Ok(v)
               else OutOfRange
  {
    hide Value, TakeDigits, SkipSpace, AllSpace;
    var s := sign + d + rest;
    assert space + sign + d + rest == space + s;
    NoBlankFirst(sign, d, rest);
    SkipAllSpace(space, s);
    TakeUpTo(d, rest);
  }

  // ---------------------------------------------------------------- parsing

  /** start, ..., end; nothing when end is the smaller. */
  function Range(start: int, end: int): (r: seq<int>)
    ensures |r| == (if end < start then 0 else end - start + 1)
    ensures forall i :: 0 <= i < |r| ==> r[i] == start + i
  {
    seq(if end < start then 0 else end - start + 1, i => start + i)
  }

  /** `std::string::find` of one character; the length when it is not there. */
  function Find(s: string, c: char, from: nat): (i: nat)
    requires from <= |s|
    ensures from <= i <= |s| && (i < |s| ==> s[i] == c)
    ensures forall k :: from <= k < i ==> s[k] != c
    decreases |s| - from
  {
    if from == |s| || s[from] == c then from else Find(s, c, from + 1)
  }

  /** The CPUs one token lists. */
  function TokenCpus(token: string): Parsed<seq<int>> {
    var dash := Find(token, '-', 0);
    if token == "" then Ok([])
    else if dash < |token| then
      var start := Stoi(token[..dash]);
      var end := Stoi(token[dash + 1..]);
      if start.InvalidArgument? || (start.Ok? && end.InvalidArgument?) then InvalidArgument
      else if !start.Ok? || !end.Ok? then OutOfRange
      else if start.value <= end.value == INT_MAX then Overflow
      else Ok(Range(start.value, end.value))
    else
      match Stoi(token)
      case Ok(n) => Ok([n])
      case InvalidArgument => InvalidArgument
      case _ => OutOfRange
  }

  function Append(a: Parsed<seq<int>>, b: Parsed<seq<int>>): Parsed<seq<int>> {
    if !a.Ok? then a else if !b.Ok? then b else Ok(a.value + b.value)
  }

  /** What the comma-separated tokens list; the first that throws decides. */
  function Listed(s: string): Parsed<seq<int>>
    decreases |s|
  {
    var comma := Find(s, ',', 0);
    if comma == |s| then TokenCpus(s) else Append(TokenCpus(s[..comma]), Listed(s[comma + 1..]))
  }

  /** `parseToken`; on Ok `longer` is the extended list. */
  method ParseToken(token: string, cpus: seq<int>) returns (r: Parsed<seq<int>>)
    ensures r == Append(Ok(cpus), TokenCpus(token))
  {
    if token == "" {
      assert cpus + [] == cpus;
      return Ok(cpus);
    }
    var dashPos := Find(token, '-', 0);
    var longer := cpus;
    if dashPos < |token| {
      var start := Stoi(token[..dashPos]);
      if !start.Ok? {
        return if start.InvalidArgument? then InvalidArgument else OutOfRange;
      }
      var end := Stoi(token[dashPos + 1..]);
      if !end.Ok? {
        return if end.InvalidArgument? then InvalidArgument else OutOfRange;
      }
      var cpu := start.value;
      while cpu <= end.value
        invariant start.value <= cpu <= INT_MAX && (cpu <= end.value + 1 || cpu == start.value)
        invariant longer == cpus + Range(start.value, cpu - 1)
      {
        longer := longer + [cpu];
        if cpu == INT_MAX {
          return Overflow;
        }
        cpu := cpu + 1;
      }
    } else {
      var n := Stoi(token);
      if !n.Ok? {
        return if n.InvalidArgument? then InvalidArgument else OutOfRange;
      }
      longer := longer + [n.value];
    }
    r := Ok(longer);
  }

  /** `parseAffinityString` */
  method ParseAffinityString(str: string) returns (r: Parsed<seq<int>>)
    ensures r == Listed(str)
  {
    hide TokenCpus, Find;
    var cpus: seq<int> := [];
    var start := 0;
    var end := Find(str, ',', start);
    assert str[0..] == str;
    AppendNothing(Listed(str));
    while end < |str|
      invariant start <= end <= |str| && end == Find(str, ',', start)
      invariant Listed(str) == Append(Ok(cpus), Listed(str[start..]))
      decreases |str| - start
    {
      FindInSuffix(str, ',', start);
      var token := str[start..end];
      ListedSplit(str, start, end);
      var more := ParseToken(token, cpus);
      if !more.Ok? {
        return more;
      }
      AppendAssoc(cpus, TokenCpus(token), Listed(str[end + 1..]));
      cpus := more.value;
      start := end + 1;
      end := Find(str, ',', start);
    }
    FindInSuffix(str, ',', start);
    r := ParseToken(str[start..], cpus);
  }

  lemma AppendNothing(p: Parsed<seq<int>>)
    ensures Append(Ok([]), p) == p
  {
    if p.Ok? { assert [] + p.value == p.value; }
  }

  lemma AppendAssoc(a: seq<int>, b: Parsed<seq<int>>, c: Parsed<seq<int>>)
    ensures Append(Ok(a), Append(b, c)) == Append(Append(Ok(a), b), c)
  {
    if b.Ok? && c.Ok? { assert a + (b.value + c.value) == a + b.value + c.value; }
  }

  lemma ListedSplit(s: string, start: nat, comma: nat)
    requires start <= comma < |s| && Find(s[start..], ',', 0) == comma - start
    ensures Listed(s[start..]) == Append(TokenCpus(s[start..comma]), Listed(s[comma + 1..]))
  {
    hide TokenCpus;
    assert s[start..][..comma - start] == s[start..comma] && s[start..][comma - start + 1..] == s[comma + 1..];
  }

  lemma FindInSuffix(s: string, c: char, from: nat)
    requires from <= |s|
    ensures Find(s[from..], c, 0) == Find(s, c, from) - from
  {
    FindIs(s[from..], c, Find(s, c, from) - from);
  }

  lemma FindIs(s: string, c: char, i: nat)
    requires i <= |s| && (i < |s| ==> s[i] == c)
    requires forall k :: 0 <= k < i ==> s[k] != c
    ensures Find(s, c, 0) == i
  {
    var j := Find(s, c, 0);
    assert j < |s| ==> s[j] == c;
  }

  // ---------------------------------------------------------------- printing

  datatype Run = Run(first: nat, last: nat)

  /** The members below n, ascending. */
  function Members(cpus: set<nat>, n: nat): (m: seq<int>)
    ensures forall c: int :: c in m <==> 0 <= c < n && c in cpus
    ensures forall i, j :: 0 <= i < j < |m| ==> m[i] < m[j]
  {
    if n == 0 then []
    else
      var m := Members(cpus, n - 1);
      if n - 1 !in cpus then m
      else
        assert forall i :: 0 <= i < |m| ==> m[i] in m;
        m + [n - 1]
  }

  /** Member n joins the last run or starts a new one. */
  function AddMember(runs: seq<Run>, n: nat): (longer: seq<Run>)
    ensures longer != [] && longer[|longer| - 1].last == n
  {
    if runs != [] && runs[|runs| - 1].last == n - 1 then
      runs[..|runs| - 1] + [Run(runs[|runs| - 1].first, n)]
    else runs + [Run(n, n)]
  }

  /** The maximal runs of members below n, ascending. */
  function Runs(cpus: set<nat>, n: nat): (runs: seq<Run>)
    ensures forall r :: r in runs ==> r.first <= r.last < n
  {
    if n == 0 then []
    else
      var runs := Runs(cpus, n - 1);
      if n - 1 in cpus then
        assert forall r :: r in AddMember(runs, n - 1) ==> r in runs || r.last == n - 1;
        AddMember(runs, n - 1)
      else runs
  }

  function Expand(runs: seq<Run>): seq<int> {
    if runs == [] then [] else Expand(runs[..|runs| - 1]) + Range(runs[|runs| - 1].first, runs[|runs| - 1].last)
  }

  /** `formatRange` */
  function FormatRange(start: int, end: int): (f: string) {
    if start == end then ToString(start) + ","
    else if end == start + 1 then ToString(start) + "," + ToString(end) + ","
    else ToString(start) + "-" + ToString(end) + ","
  }

  function Text(runs: seq<Run>): string {
    if runs == [] then "" else Text(runs[..|runs| - 1]) + FormatRange(runs[|runs| - 1].first, runs[|runs| - 1].last)
  }

  /** The maximal runs, formatted, without the last comma. */
  function Printed(cpus: set<nat>, setSize: nat): string {
    var text := Text(Runs(cpus, setSize));
    if text == "" then "none" else text[..|text| - 1]
  }

  lemma {:induction false} TextEndsInComma(runs: seq<Run>)
    requires runs != []
    ensures |Text(runs)| > 1 && Text(runs)[|Text(runs)| - 1] == ','
  {
  }

  /** What joining the last run and starting a new one do to the runs before it. */
  lemma AddMemberShape(runs: seq<Run>, n: nat)
    ensures var longer := AddMember(runs, n);
            if runs != [] && runs[|runs| - 1].last == n - 1 then
              longer[..|longer| - 1] == runs[..|runs| - 1]
              && longer[|longer| - 1] == Run(runs[|runs| - 1].first, n)
            else longer[..|longer| - 1] == runs && longer[|longer| - 1] == Run(n, n)
  {
  }

  /** `cpusetToString` */
  method CpusetToString(cpus: set<nat>, setSize: nat) returns (result: string)
    ensures result == Printed(cpus, setSize)
  {
    hide FormatRange, AddMember;
    result := "";
    var rangeStart, prevCpu: int := -1, -1;
    for cpu := 0 to setSize
      invariant Scanned(result, rangeStart, prevCpu, Runs(cpus, cpu), cpu)
    {
      ghost var runs := Runs(cpus, cpu);
      AddMemberShape(runs, cpu);
      if cpu in cpus {
        if rangeStart == -1 {
          rangeStart := cpu;
        } else if cpu != prevCpu + 1 {
          result := result + FormatRange(rangeStart, prevCpu);
          rangeStart := cpu;
        }
        prevCpu := cpu;
      } else if rangeStart != -1 {
        result := result + FormatRange(rangeStart, prevCpu);
        rangeStart := -1;
        prevCpu := -1;
      }
    }
    if rangeStart != -1 {
      result := result + FormatRange(rangeStart, prevCpu);
    }
    ghost var runs := Runs(cpus, setSize);
    assert result == Text(runs);
    if runs != [] { TextEndsInComma(runs); }
    if result != "" && result[|result| - 1] == ',' {
      result := result[..|result| - 1];
    }
    result := if result == "" then "none" else result;
  }

  /** What the loop knows before it looks at `cpu`: the last run is still open exactly when it
      ends just below. */
  ghost predicate Scanned(result: string, rangeStart: int, prevCpu: int, runs: seq<Run>, cpu: nat) {
    if rangeStart == -1 then
      prevCpu == -1 && result == Text(runs) && (runs != [] ==> runs[|runs| - 1].last < cpu - 1)
    else
      && 0 <= rangeStart <= prevCpu == cpu - 1
      && runs != [] && runs[|runs| - 1] == Run(rangeStart, prevCpu) && result == Text(runs[..|runs| - 1])
  }

  // ---------------------------------------------------------------- round trip

  lemma ExpandAddMember(runs: seq<Run>, n: nat)
    requires forall r :: r in runs ==> r.first <= r.last
    ensures Expand(AddMember(runs, n)) == Expand(runs) + [n]
  {
    AddMemberShape(runs, n);
    if runs != [] && runs[|runs| - 1].last == n - 1 {
      var open := runs[|runs| - 1];
      assert open in runs;
      assert Range(open.first, n) == Range(open.first, n - 1) + [n];
      assert Expand(runs) == Expand(runs[..|runs| - 1]) + Range(open.first, n - 1);
    } else {
      assert Range(n, n) == [n];
    }
  }

  lemma {:induction false} RunsAreTheMembers(cpus: set<nat>, n: nat)
    ensures Expand(Runs(cpus, n)) == Members(cpus, n)
  {
    hide AddMember;
    if n > 0 {
      RunsAreTheMembers(cpus, n - 1);
      ExpandAddMember(Runs(cpus, n - 1), n - 1);
    }
  }

  /** No two runs touch. */
  ghost predicate Separate(runs: seq<Run>) {
    forall i, j :: 0 <= i < j < |runs| ==> runs[i].last + 1 < runs[j].first
  }

  /** The runs are maximal: between any two lies a CPU that is not a member. */
  lemma {:induction false} RunsAreMaximal(cpus: set<nat>, n: nat)
    ensures Separate(Runs(cpus, n))
  {
    hide Runs, AddMember;
    if n > 0 {
      RunsAreMaximal(cpus, n - 1);
      var runs := Runs(cpus, n - 1);
      RunsNext(cpus, n);
      forall i | 0 <= i < |runs| ensures runs[i].first <= runs[i].last < n - 1 { assert runs[i] in runs; }
      SeparateAdd(runs, n - 1);
    }
  }

  lemma RunsNext(cpus: set<nat>, n: nat)
    requires n > 0
    ensures Runs(cpus, n) == if n - 1 in cpus then AddMember(Runs(cpus, n - 1), n - 1) else Runs(cpus, n - 1)
  {
    hide AddMember;
  }

  lemma SeparateAdd(runs: seq<Run>, n: nat)
    requires Separate(runs) && forall i :: 0 <= i < |runs| ==> runs[i].first <= runs[i].last < n
    ensures Separate(AddMember(runs, n))
  {
    AddMemberShape(runs, n);
    hide AddMember;
    var longer := AddMember(runs, n);
    var last := |longer| - 1;
    forall i, j | 0 <= i < j < |longer| ensures longer[i].last + 1 < longer[j].first {
      assert longer[..last][i] == longer[i];
      if j < last { assert longer[..last][j] == longer[j]; }
    }
  }

  predicate InRun(runs: seq<Run>, i: nat, c: int) { i < |runs| && runs[i].first <= c <= runs[i].last }

  predicate Covers(runs: seq<Run>, c: int) { exists i :: 0 <= i < |runs| && InRun(runs, i, c) }

  lemma CoversLast(runs: seq<Run>, c: int)
    requires runs != []
    ensures Covers(runs, c) <==> Covers(runs[..|runs| - 1], c) || InRun(runs, |runs| - 1, c)
  {
    var init := runs[..|runs| - 1];
    if i :| 0 <= i < |init| && InRun(init, i, c) { assert InRun(runs, i, c); }
    if i :| 0 <= i < |runs| && InRun(runs, i, c) && i < |init| { assert InRun(init, i, c); }
  }

  lemma {:induction false} ExpandIff(runs: seq<Run>, c: int)
    requires forall i :: 0 <= i < |runs| ==> runs[i].first <= runs[i].last
    ensures c in Expand(runs) <==> Covers(runs, c)
  {
    hide Covers;
    if runs == [] {
      NoneCovers(c);
    } else {
      var r := runs[|runs| - 1];
      ExpandIff(runs[..|runs| - 1], c);
      RangeIff(r.first, r.last, c);
      CoversLast(runs, c);
    }
  }

  lemma NoneCovers(c: int)
    ensures !Covers([], c)
  {
  }

  lemma RangeIff(start: int, end: int, c: int)
    ensures c in Range(start, end) <==> start <= c <= end
  {
    if start <= c <= end { assert Range(start, end)[c - start] == c; }
  }

  lemma DashIsLong(first: nat, last: nat)
    requires first <= last
    ensures '-' in FormatRange(first, last) <==> first + 2 <= last
  {
    DigitsHaveNo(ToString(first), '-');
    DigitsHaveNo(ToString(last), '-');
  }

  predicate Long(r: Run) { r.first + 2 <= r.last }

  predicate HasLong(runs: seq<Run>) { exists i :: 0 <= i < |runs| && Long(runs[i]) }

  lemma HasLongLast(runs: seq<Run>)
    requires runs != []
    ensures HasLong(runs) <==> HasLong(runs[..|runs| - 1]) || Long(runs[|runs| - 1])
  {
    hide Long;
    var init := runs[..|runs| - 1];
    if HasLong(init) {
      var i :| 0 <= i < |init| && Long(init[i]);
      assert runs[i] == init[i];
    }
    if i :| 0 <= i < |runs| && Long(runs[i]) && i < |init| { assert init[i] == runs[i]; }
  }

  lemma {:induction false} DashInText(runs: seq<Run>)
    requires forall i :: 0 <= i < |runs| ==> runs[i].first <= runs[i].last
    ensures '-' in Text(runs) <==> HasLong(runs)
  {
    hide FormatRange, HasLong;
    if runs == [] {
      assert !HasLong([]) by { NoneLong(); }
    } else {
      var init, r := runs[..|runs| - 1], runs[|runs| - 1];
      DashInText(init);
      DashIsLong(r.first, r.last);
      HasLongLast(runs);
    }
  }

  lemma NoneLong()
    ensures !HasLong([])
  {
  }

  /** Three members in a row, from `c` on. */
  predicate Three(cpus: set<nat>, n: nat, c: nat) { c in cpus && c + 1 in cpus && c + 2 in cpus && c + 2 < n }

  /** The run of a member. */
  lemma RunOf(cpus: set<nat>, n: nat, c: nat) returns (i: nat)
    requires c in cpus && c < n
    ensures InRun(Runs(cpus, n), i, c)
  {
    hide Runs, Expand;
    var runs := Runs(cpus, n);
    RunsAreTheMembers(cpus, n);
    forall i | 0 <= i < |runs| ensures runs[i].first <= runs[i].last { assert runs[i] in runs; }
    ExpandIff(runs, c);
    i :| i < |runs| && InRun(runs, i, c);
  }

  lemma RunHas(cpus: set<nat>, n: nat, i: nat, c: nat)
    requires InRun(Runs(cpus, n), i, c)
    ensures c in cpus && c < n
  {
    hide Runs, Expand;
    var runs := Runs(cpus, n);
    RunsAreTheMembers(cpus, n);
    forall i | 0 <= i < |runs| ensures runs[i].first <= runs[i].last { assert runs[i] in runs; }
    ExpandIff(runs, c);
  }

  lemma ThreeInOneRun(cpus: set<nat>, n: nat, c: nat)
    requires Three(cpus, n, c)
    ensures HasLong(Runs(cpus, n))
  {
    hide Runs;
    var runs := Runs(cpus, n);
    RunsAreMaximal(cpus, n);
    var i := RunOf(cpus, n, c);
    var j := RunOf(cpus, n, c + 1);
    var k := RunOf(cpus, n, c + 2);
    Touching(runs, i, j, c);
    Touching(runs, j, k, c + 1);
    assert Long(runs[i]);
  }

  lemma Touching(runs: seq<Run>, i: nat, j: nat, c: int)
    requires Separate(runs) && InRun(runs, i, c) && InRun(runs, j, c + 1)
    ensures i == j
  {
  }

  /** A dash is printed exactly when three members are in a row; two in a row are printed as numbers. */
  lemma DashIff(cpus: set<nat>, setSize: nat)
    ensures '-' in Printed(cpus, setSize) <==> exists c: nat :: Three(cpus, setSize, c)
  {
    hide Runs, Text, HasLong, Three;
    var runs := Runs(cpus, setSize);
    forall i | 0 <= i < |runs| ensures runs[i].first <= runs[i].last { assert runs[i] in runs; }
    DashInText(runs);
    DashInPrinted(runs);
    if HasLong(runs) { var c := LongIsThree(cpus, setSize); }
    if c: nat :| Three(cpus, setSize, c) { ThreeInOneRun(cpus, setSize, c); }
  }

  lemma LongIsThree(cpus: set<nat>, n: nat) returns (c: nat)
    requires HasLong(Runs(cpus, n))
    ensures Three(cpus, n, c)
  {
    hide Runs;
    var runs := Runs(cpus, n);
    var i: nat :| i < |runs| && Long(runs[i]);
    c := runs[i].first;
    RunHas(cpus, n, i, c);
    RunHas(cpus, n, i, c + 1);
    RunHas(cpus, n, i, c + 2);
  }

  lemma DashInPrinted(runs: seq<Run>)
    ensures var text := Text(runs); text != "" ==> ('-' in text[..|text| - 1] <==> '-' in text)
  {
    if runs != [] {
      TextEndsInComma(runs);
      var text := Text(runs);
      assert text == text[..|text| - 1] + ",";
    }
  }

  lemma DigitsHaveNo(s: string, c: char)
    requires AllDigits(s) && !IsDigit(c)
    ensures c !in s
  {
  }

  lemma TokenOfNumber(n: nat)
    requires n <= INT_MAX
    ensures TokenCpus(ToString(n)) == Ok([n]) && ',' !in ToString(n)
  {
    hide Stoi;
    var s := ToString(n);
    DigitsHaveNo(s, '-');
    DigitsHaveNo(s, ',');
    FindIs(s, '-', |s|);
    StoiOfToString(n);
  }

  lemma TokenOfRange(a: nat, b: nat)
    requires a <= INT_MAX && b <= INT_MAX
    ensures var token := ToString(a) + "-" + ToString(b);
            TokenCpus(token) == (if a <= b == INT_MAX then Overflow else Ok(Range(a, b))) && ',' !in token
  {
    hide Stoi;
    var x, y := ToString(a), ToString(b);
    var token := x + "-" + y;
    DigitsHaveNo(x, '-');
    DigitsHaveNo(x, ',');
    DigitsHaveNo(y, ',');
    assert token[..|x|] == x && token[|x| + 1..] == y;
    FindIs(token, '-', |x|);
    StoiOfToString(a);
    StoiOfToString(b);
  }

  /** A token with a dash lists from the number before its first dash to the one behind it; what is wrong
      with the first number is found before what is wrong with the second. */
  lemma TokenOf(x: string, y: string)
    requires '-' !in x
    ensures var token, a, b := x + "-" + y, Stoi(x), Stoi(y);
            && (a.InvalidArgument? || a.OutOfRange? ==> TokenCpus(token) == if a.OutOfRange? then OutOfRange
                                                                            else InvalidArgument)
            && (a.Ok? && (b.InvalidArgument? || b.OutOfRange?) ==>
                  TokenCpus(token) == if b.OutOfRange? then OutOfRange else InvalidArgument)
            && (a.Ok? && b.Ok? && b.value < a.value ==> TokenCpus(token) == Ok([]))
            && (a.Ok? && b.Ok? && a.value <= b.value < 0x7fff_ffff ==>
                  && TokenCpus(token).Ok? && |TokenCpus(token).value| == b.value - a.value + 1
                  && forall i :: 0 <= i <= b.value - a.value ==> TokenCpus(token).value[i] == a.value + i)
  {
    hide Stoi;
    var token := x + "-" + y;
    FindIs(token, '-', |x|);
    assert token[..|x|] == x && token[|x| + 1..] == y;
    StoiFails(x);
    StoiFails(y);
  }

  /** A token without a dash lists its number; an empty one lists nothing, wherever it stands. */
  lemma SingleToken(token: string, rest: string)
    requires '-' !in token && token != ""
    ensures Stoi(token).Ok? ==> TokenCpus(token) == Ok([Stoi(token).value])
    ensures Stoi(token).InvalidArgument? ==> TokenCpus(token) == InvalidArgument
    ensures Stoi(token).OutOfRange? ==> TokenCpus(token) == OutOfRange
    ensures Listed("") == Ok([]) && Listed("," + rest) == Listed(rest)
  {
    hide Stoi;
    FindIs(token, '-', |token|);
    FindIs("", ',', 0);
    FindIs("," + rest, ',', 0);
    assert ("," + rest)[1..] == rest && ("," + rest)[..0] == "";
    AppendNothing(Listed(rest));
  }

  lemma StoiFails(s: string)
    ensures !Stoi(s).Overflow?
  {
  }

  lemma ListedStep(token: string, rest: string)
    requires ',' !in token
    ensures Listed(token + "," + rest) == Append(TokenCpus(token), Listed(rest))
    ensures Listed(token) == TokenCpus(token)
  {
    var s := token + "," + rest;
    assert s[..|token|] == token && s[|token| + 1..] == rest;
    FindIs(s, ',', |token|);
    FindIs(token, ',', |token|);
  }

  /** A formatted run in front of more text lists the run first; on its own, without the comma,
      it lists just the run. */
  lemma ListedRun(first: nat, last: nat, rest: string)
    requires first <= last < INT_MAX
    ensures Listed(FormatRange(first, last) + rest) == Append(Ok(Range(first, last)), Listed(rest))
    ensures var f := FormatRange(first, last);
            f != "" && Listed(f[..|f| - 1]) == Ok(Range(first, last))
  {
    hide TokenCpus, Listed;
    var f := FormatRange(first, last);
    var a, b := ToString(first), ToString(last);
    TokenOfNumber(first);
    TokenOfNumber(last);
    if first == last {
      assert Range(first, last) == [first];
      assert f[..|f| - 1] == a && f + rest == a + "," + rest;
      ListedStep(a, rest);
    } else if last == first + 1 {
      assert Range(first, last) == [first] + [last];
      assert f[..|f| - 1] == a + "," + b && f + rest == a + "," + (b + "," + rest);
      ListedStep(a, b + "," + rest);
      ListedStep(b, rest);
      ListedStep(a, b);
      AppendAssoc([first], Ok([last]), Listed(rest));
    } else {
      TokenOfRange(first, last);
      assert f[..|f| - 1] == a + "-" + b && f + rest == (a + "-" + b) + "," + rest;
      ListedStep(a + "-" + b, rest);
    }
  }

  /** Parsing formatted runs followed by any text lists the runs and then the text. */
  lemma {:induction false} ListedText(runs: seq<Run>, rest: string)
    requires forall r :: r in runs ==> r.first <= r.last < INT_MAX
    ensures Listed(Text(runs) + rest) == Append(Ok(Expand(runs)), Listed(rest))
    decreases |runs|
  {
    hide Listed, FormatRange;
    if runs == [] {
      assert Text(runs) + rest == rest;
      AppendNothing(Listed(rest));
    } else {
      var r, init := runs[|runs| - 1], runs[..|runs| - 1];
      assert r in runs && forall x :: x in init ==> x in runs;
      var f := FormatRange(r.first, r.last);
      assert Text(runs) + rest == Text(init) + (f + rest);
      ListedText(init, f + rest);
      ListedRun(r.first, r.last, rest);
      AppendAssoc(Expand(init), Ok(Range(r.first, r.last)), Listed(rest));
    }
  }

  /** The affinity round trip: parsing the printed form of a CPU set lists exactly its members in
      ascending order; an empty set prints as "none", which does not parse.  The round trip holds
      if and only if the set has a member below CPU_SETSIZE. */
  lemma AffinityRoundTrip(cpus: set<nat>, setSize: nat)
    requires setSize <= INT_MAX
    ensures Listed(Printed(cpus, setSize)) ==
              (if exists c :: c in cpus && c < setSize then Ok(Members(cpus, setSize)) else InvalidArgument)
  {
    var runs := Runs(cpus, setSize);
    RunsAreTheMembers(cpus, setSize);
    if runs == [] {
      assert Members(cpus, setSize) == [];
      assert forall c :: c in cpus && c < setSize ==> c in Members(cpus, setSize);
      NoneDoesNotParse();
    } else {
      var r, init := runs[|runs| - 1], runs[..|runs| - 1];
      assert r in runs && forall x :: x in init ==> x in runs;
      PrintedText(runs);
      var f := FormatRange(r.first, r.last);
      ListedText(init, f[..|f| - 1]);
      ListedRun(r.first, r.last, "");
      LastRunIsMember(runs);
    }
  }

  lemma LastRunIsMember(runs: seq<Run>)
    requires runs != [] && runs[|runs| - 1].first <= runs[|runs| - 1].last
    ensures runs[|runs| - 1].first in Expand(runs)
  {
    var r := runs[|runs| - 1];
    assert Range(r.first, r.last)[0] == r.first;
    assert Expand(runs) == Expand(runs[..|runs| - 1]) + Range(r.first, r.last);
  }

  lemma PrintedText(runs: seq<Run>)
    requires runs != []
    ensures var r, init := runs[|runs| - 1], runs[..|runs| - 1];
            var f := FormatRange(r.first, r.last);
            f != "" && Text(runs) != "" && Text(runs)[..|Text(runs)| - 1] == Text(init) + f[..|f| - 1]
  {
  }

  lemma NoneDoesNotParse()
    ensures Listed("none") == InvalidArgument
  {
    FindIs("none", ',', 4);
    FindIs("none", '-', 4);
    assert SkipSpace("none") == "none";
    assert TakeDigits("none") == "";
  }
}
