/** special.go: the MOVEM register-list printer and what its text can be read back to. */
module RegisterLists {
  import opened Words
  import opened Text

  // ---- runs ----

  /** The digit of a register name, or -1. */
  function ExtractRegNum(name: string): int {
    if |name| < 2 then -1
    else if '0' <= name[1] <= '7' then name[1] as int - '0' as int
    else -1
  }

  predicate Consecutive(a: string, b: string) {
    ExtractRegNum(a) >= 0 && ExtractRegNum(b) >= 0 && ExtractRegNum(b) == ExtractRegNum(a) + 1
  }

  /** End of the run that holds position j - 1: the first later position that does not continue it. */
  function RunEnd(registers: seq<string>, j: nat): (end: nat)
    requires 1 <= j <= |registers|
    ensures j <= end <= |registers|
    decreases |registers| - j
  {
    if j < |registers| && Consecutive(registers[j - 1], registers[j]) then RunEnd(registers, j + 1) else j
  }

  /** First and last name of a run. */
  datatype Run = Run(first: string, last: string)

  /** The runs from position i on. */
  function Runs(registers: seq<string>, i: nat): seq<Run>
    requires i <= |registers|
    decreases |registers| - i
  {
    if i == |registers| then []
    else
      var end := RunEnd(registers, i + 1);
      [Run(registers[i], registers[end - 1])] + Runs(registers, end)
  }

  function RunText(run: Run): string {
    if run.first == run.last then run.first else run.first + "-" + run.last
  }

  function Separated(result: string): string {
    if result != "" then result + "/" else result
  }

  /** Text `result` continued with the given runs. */
  function AppendRuns(result: string, runs: seq<Run>): string
    decreases |runs|
  {
    if runs == [] then result else AppendRuns(Separated(result) + RunText(runs[0]), runs[1..])
  }

  /** The inner loop of formatRegisterRange: extends the run that starts at `i`. */
  method ScanRun(registers: seq<string>, i: nat) returns (end: string, j: nat)
    requires i < |registers|
    ensures j == RunEnd(registers, i + 1) && end == registers[j - 1]
  {
    end := registers[i];
    j := i + 1;
    while j < |registers|
      invariant i < j <= |registers|
      invariant end == registers[j - 1]
      invariant RunEnd(registers, i + 1) == RunEnd(registers, j)
    {
      var prevNum := ExtractRegNum(registers[j - 1]);
      var currNum := ExtractRegNum(registers[j]);
      if prevNum >= 0 && currNum >= 0 && currNum == prevNum + 1 {
        end := registers[j];
        j := j + 1;
      } else {
        break;
      }
    }
  }

  lemma AppendNextRun(before: string, after: string, registers: seq<string>, i: nat)
    requires i < |registers|
    requires after == Separated(before) + RunText(Run(registers[i], registers[RunEnd(registers, i + 1) - 1]))
    ensures AppendRuns(after, Runs(registers, RunEnd(registers, i + 1))) == AppendRuns(before, Runs(registers, i))
  {
    hide RunEnd, Separated, RunText, Consecutive;
    assert Runs(registers, i)[1..] == Runs(registers, RunEnd(registers, i + 1));
  }

  method FormatRegisterRange(registers: seq<string>) returns (result: string)
    ensures result == AppendRuns("", Runs(registers, 0))
  {
    if |registers| == 0 {
      return "";
    }
    result := "";
    var i := 0;
    while i < |registers|
      invariant 0 <= i <= |registers|
      invariant AppendRuns(result, Runs(registers, i)) == AppendRuns("", Runs(registers, 0))
    {
      ghost var before := result;
      if result != "" {
        result := result + "/";
      }
      var start := registers[i];
      var end, j := ScanRun(registers, i);
      if start == end {
        result := result + start;
      } else {
        result := result + (start + "-" + end);
      }
      assert result == Separated(before) + RunText(Run(start, end));
      AppendNextRun(before, result, registers, i);
      i := j;
    }
  }

  // ---- reading a list back ----

  /** The register names the printer is called with. */
  predicate IsName(s: string) {
    |s| == 2 && s[0] in {'D', 'A'} && '0' <= s[1] <= '7'
  }

  predicate AllNames(registers: seq<string>) {
    forall i :: 0 <= i < |registers| ==> IsName(registers[i])
  }

  predicate NamedRuns(runs: seq<Run>) {
    forall i :: 0 <= i < |runs| ==> IsName(runs[i].first) && IsName(runs[i].last)
  }

  /** What follows n characters and a "/". */
  function Skip(text: string, n: nat): string {
    if |text| > n && text[n] == '/' then text[n + 1..] else ""
  }

  /** First and last name of each run: cut at "/", then at "-". */
  function ReadRuns(text: string): seq<Run>
    decreases |text|
  {
    if |text| < 2 then []
    else if |text| >= 5 && text[2] == '-' then [Run(text[..2], text[3..5])] + ReadRuns(Skip(text, 5))
    else [Run(text[..2], text[..2])] + ReadRuns(Skip(text, 2))
  }

  lemma {:induction false} AppendRunsBehind(result: string, runs: seq<Run>)
    requires result != "" && NamedRuns(runs)
    ensures AppendRuns(result, runs) == if runs == [] then result else result + "/" + AppendRuns("", runs)
    decreases |runs|
  {
    hide RunText, IsName;
    if runs != [] {
      var run, rest := RunText(runs[0]), runs[1..];
      RunTextNonEmpty(runs[0]);
      assert AppendRuns(result, runs) == AppendRuns(result + "/" + run, rest);
      assert Separated("") + run == run;
      assert AppendRuns("", runs) == AppendRuns(run, rest);
      hide AppendRuns, Separated;
      AppendRunsBehind(result + "/" + run, rest);
      AppendRunsBehind(run, rest);
      Regroup(result, run, AppendRuns("", rest));
    }
  }

  lemma Regroup(a: string, b: string, c: string)
    ensures (a + "/" + b) + "/" + c == a + "/" + (b + "/" + c)
  {
  }

  lemma RunTextNonEmpty(run: Run)
    requires IsName(run.first)
    ensures RunText(run) != ""
  {
  }

  lemma ReadOne(run: Run, tail: string)
    requires IsName(run.first) && IsName(run.last)
    ensures ReadRuns(RunText(run)) == [run] + ReadRuns("")
    ensures ReadRuns(RunText(run) + "/" + tail) == [run] + ReadRuns(tail)
  {
    var s := RunText(run);
    var text := s + "/" + tail;
    assert text[..2] == run.first && s[..2] == run.first;
    assert Skip(text, |s|) == tail && Skip(s, |s|) == "";
    if run.first != run.last {
      assert text[3..5] == run.last && s[3..5] == run.last;
    }
  }

  /** The printed runs read back one by one. */
  lemma {:induction false} ReadRunsInverse(runs: seq<Run>)
    requires NamedRuns(runs)
    ensures ReadRuns(AppendRuns("", runs)) == runs
  {
    if runs != [] {
      var rest := runs[1..];
      AppendRunsBehind(RunText(runs[0]), rest);
      assert Separated("") + RunText(runs[0]) == RunText(runs[0]);
      ReadOne(runs[0], AppendRuns("", rest));
      ReadRunsInverse(rest);
    }
  }

  /** The usual reading of "Xa-Yb": register kind X, numbers a to b. */
  function ExpandRun(run: Run): seq<string> {
    var a, b := ExtractRegNum(run.first), ExtractRegNum(run.last);
    if run.first == "" || a < 0 then [] else NamesUpTo(run.first[0], a, b)
  }

  function NamesUpTo(letter: char, a: nat, b: int): (names: seq<string>)
    requires b < 10
    ensures |names| == if b < a then 0 else b - a + 1
    decreases b - a
  {
    if b < a then [] else [[letter, Digit(a)]] + NamesUpTo(letter, a + 1, b)
  }

  lemma {:induction false} NamesUpToAt(letter: char, a: nat, b: int, k: nat)
    requires a + k <= b < 10
    ensures NamesUpTo(letter, a, b)[k] == [letter, Digit(a + k)]
    decreases k
  {
    if k > 0 {
      NamesUpToAt(letter, a + 1, b, k - 1);
    }
  }

  function ExpandRuns(runs: seq<Run>): seq<string> {
    if runs == [] then [] else ExpandRun(runs[0]) + ExpandRuns(runs[1..])
  }

  function Expand(text: string): seq<string> {
    ExpandRuns(ReadRuns(text))
  }

  /** No run from position i on goes from a D register to an A register, or back. */
  predicate Uncrossed(registers: seq<string>, i: nat)
    requires AllNames(registers)
  {
    forall k :: i < k < |registers| && Consecutive(registers[k - 1], registers[k]) ==>
      registers[k - 1][0] == registers[k][0]
  }

  lemma {:induction false} RunIsMaximal(registers: seq<string>, j: nat)
    requires 1 <= j <= |registers|
    ensures var end := RunEnd(registers, j);
            && (forall k :: j <= k < end ==> Consecutive(registers[k - 1], registers[k]))
            && (end < |registers| ==> !Consecutive(registers[end - 1], registers[end]))
    decreases |registers| - j
  {
    if RunEnd(registers, j) > j {
      RunIsMaximal(registers, j + 1);
    }
  }

  lemma {:induction false} RunNumbers(registers: seq<string>, i: nat, k: nat)
    requires AllNames(registers) && i <= k < |registers| && k < RunEnd(registers, i + 1)
    ensures ExtractRegNum(registers[k]) == ExtractRegNum(registers[i]) + k - i
    decreases k
  {
    if k > i {
      RunNumbers(registers, i, k - 1);
      RunIsMaximal(registers, i + 1);
      assert Consecutive(registers[k - 1], registers[k]);
    }
  }

  lemma {:induction false} RunsAreNamed(registers: seq<string>, i: nat)
    requires AllNames(registers) && i <= |registers|
    ensures NamedRuns(Runs(registers, i))
    decreases |registers| - i
  {
    if i < |registers| {
      RunsAreNamed(registers, RunEnd(registers, i + 1));
    }
  }

  lemma NumberedName(s: string)
    requires IsName(s)
    ensures 0 <= ExtractRegNum(s) < 8 && s == [s[0], Digit(ExtractRegNum(s))]
  {
  }

  lemma NameAt(registers: seq<string>, i: nat)
    requires AllNames(registers) && i < |registers|
    ensures IsName(registers[i]) && |registers[i]| == 2
    ensures 0 <= ExtractRegNum(registers[i]) < 8
    ensures registers[i] == [registers[i][0], Digit(ExtractRegNum(registers[i]))]
    ensures registers[i][1] == Digit(ExtractRegNum(registers[i]))
  {
    NumberedName(registers[i]);
  }

  lemma ExpandRunLength(registers: seq<string>, i: nat)
    requires AllNames(registers) && i < |registers|
    ensures var end := RunEnd(registers, i + 1);
            |ExpandRun(Run(registers[i], registers[end - 1]))| == end - i
  {
    hide AllNames, IsName, RunEnd, Digit;
    var end := RunEnd(registers, i + 1);
    RunNumbers(registers, i, end - 1);
    NameAt(registers, i);
    NameAt(registers, end - 1);
  }

  /** A run expands to its own numbers, all with the letter of its first name. */
  lemma ExpandRunName(registers: seq<string>, i: nat, k: nat)
    requires AllNames(registers) && i <= k < |registers| && k < RunEnd(registers, i + 1)
    ensures k - i < |ExpandRun(Run(registers[i], registers[RunEnd(registers, i + 1) - 1]))|
    ensures ExpandRun(Run(registers[i], registers[RunEnd(registers, i + 1) - 1]))[k - i]
            == [registers[i][0], registers[k][1]]
  {
    hide AllNames, IsName, RunEnd, Digit;
    var end := RunEnd(registers, i + 1);
    ExpandRunLength(registers, i);
    RunNumbers(registers, i, k);
    NameAt(registers, i);
    NameAt(registers, k);
    NameAt(registers, end - 1);
    NamesUpToAt(registers[i][0], ExtractRegNum(registers[i]), ExtractRegNum(registers[end - 1]), k - i);
  }

  lemma ExpandHead(registers: seq<string>, i: nat)
    requires i < |registers|
    ensures var end := RunEnd(registers, i + 1);
            ExpandRuns(Runs(registers, i))
            == ExpandRun(Run(registers[i], registers[end - 1])) + ExpandRuns(Runs(registers, end))
  {
    var runs, end := Runs(registers, i), RunEnd(registers, i + 1);
    assert runs[0] == Run(registers[i], registers[end - 1]);
    assert runs[1..] == Runs(registers, end);
  }

  lemma NamesHaveTwo(registers: seq<string>)
    requires AllNames(registers)
    ensures forall i :: 0 <= i < |registers| ==> |registers[i]| == 2
  {
  }

  /** The expansion, register by register: the digit is kept, the letter is that of the run's head. */
  lemma {:induction false} ExpandRunsDigits(registers: seq<string>, i: nat)
    requires AllNames(registers) && i <= |registers|
    ensures var names := ExpandRuns(Runs(registers, i));
            && |names| == |registers| - i
            && forall k :: 0 <= k < |names| ==> |names[k]| == 2 && names[k][1] == registers[i + k][1]
    decreases |registers| - i
  {
    hide ExpandRun, RunEnd, AllNames;
    NamesHaveTwo(registers);
    if i < |registers| {
      var end := RunEnd(registers, i + 1);
      ExpandRunLength(registers, i);
      ExpandHead(registers, i);
      ExpandRunsDigits(registers, end);
      var names, tail := ExpandRuns(Runs(registers, i)), ExpandRuns(Runs(registers, end));
      forall k | 0 <= k < |names|
        ensures |names[k]| == 2 && names[k][1] == registers[i + k][1]
      {
        if i + k < end {
          ExpandRunName(registers, i, i + k);
        } else {
          assert names[k] == tail[i + k - end];
        }
      }
    }
  }

  /** Compression loses no number: for every list of register names, expanding the printed runs gives
      back the numbers in order. */
  lemma CompressionKeepsNumbers(registers: seq<string>)
    requires AllNames(registers)
    ensures var names := Expand(AppendRuns("", Runs(registers, 0)));
            && |names| == |registers|
            && forall k :: 0 <= k < |registers| ==> ExtractRegNum(names[k]) == ExtractRegNum(registers[k])
  {
    RunsAreNamed(registers, 0);
    ReadRunsInverse(Runs(registers, 0));
    ExpandRunsDigits(registers, 0);
    var names := ExpandRuns(Runs(registers, 0));
    forall k | 0 <= k < |registers|
      ensures ExtractRegNum(names[k]) == ExtractRegNum(registers[k])
    {
      assert names[k][1] == registers[0 + k][1];
    }
  }

  lemma {:induction false} RunUncrossed(registers: seq<string>, i: nat, k: nat)
    requires AllNames(registers) && Uncrossed(registers, i) && i <= k < |registers| && k < RunEnd(registers, i + 1)
    ensures registers[k][0] == registers[i][0]
    decreases k
  {
    if k > i {
      RunUncrossed(registers, i, k - 1);
      RunIsMaximal(registers, i + 1);
      assert Consecutive(registers[k - 1], registers[k]);
    }
  }

  lemma UncrossedKeepsRun(registers: seq<string>, i: nat)
    requires AllNames(registers) && i < |registers| && Uncrossed(registers, i)
    ensures var end := RunEnd(registers, i + 1);
            ExpandRun(Run(registers[i], registers[end - 1])) == registers[i..end]
  {
    hide AllNames, IsName, Uncrossed, ExpandRun, RunEnd, Digit;
    var end := RunEnd(registers, i + 1);
    var names := ExpandRun(Run(registers[i], registers[end - 1]));
    ExpandRunLength(registers, i);
    forall k | 0 <= k < |names|
      ensures names[k] == registers[i + k]
    {
      ExpandRunName(registers, i, i + k);
      RunUncrossed(registers, i, i + k);
      NameAt(registers, i + k);
    }
  }

  lemma KeptRunHasOneLetter(registers: seq<string>, i: nat, k: nat)
    requires AllNames(registers) && i <= k < |registers| && k < RunEnd(registers, i + 1)
    requires var end := RunEnd(registers, i + 1);
             ExpandRun(Run(registers[i], registers[end - 1])) == registers[i..end]
    ensures registers[k][0] == registers[i][0]
  {
    ExpandRunName(registers, i, k);
    assert registers[i..RunEnd(registers, i + 1)][k - i] == registers[k];
  }

  lemma KeptRunIsUncrossed(registers: seq<string>, i: nat)
    requires AllNames(registers) && i < |registers| && Uncrossed(registers, RunEnd(registers, i + 1))
    requires var end := RunEnd(registers, i + 1);
             ExpandRun(Run(registers[i], registers[end - 1])) == registers[i..end]
    ensures Uncrossed(registers, i)
  {
    var end := RunEnd(registers, i + 1);
    RunIsMaximal(registers, i + 1);
    forall k | i < k < |registers| && Consecutive(registers[k - 1], registers[k])
      ensures registers[k - 1][0] == registers[k][0]
    {
      assert k != end;
      if k < end {
        KeptRunHasOneLetter(registers, i, k - 1);
        KeptRunHasOneLetter(registers, i, k);
      }
    }
  }

  /** The names themselves come back exactly when no run crosses between D and A registers. */
  lemma {:induction false} ExpandRunsNames(registers: seq<string>, i: nat)
    requires AllNames(registers) && i <= |registers|
    ensures ExpandRuns(Runs(registers, i)) == registers[i..] <==> Uncrossed(registers, i)
    decreases |registers| - i
  {
    if i < |registers| {
      ExpandRunsNames(registers, RunEnd(registers, i + 1));
      NamesSplitAtRun(registers, i);
      if Uncrossed(registers, i) {
        UncrossedKeepsRun(registers, i);
      } else if Uncrossed(registers, RunEnd(registers, i + 1)) {
        CrossedRun(registers, i);
      }
    }
  }

  lemma NamesSplitAtRun(registers: seq<string>, i: nat)
    requires AllNames(registers) && i < |registers|
    ensures var end := RunEnd(registers, i + 1);
            ExpandRuns(Runs(registers, i)) == registers[i..] <==>
            && ExpandRun(Run(registers[i], registers[end - 1])) == registers[i..end]
            && ExpandRuns(Runs(registers, end)) == registers[end..]
  {
    hide ExpandRun, RunEnd, IsName, ExpandRuns, Runs;
    var end := RunEnd(registers, i + 1);
    ExpandHead(registers, i);
    ExpandRunLength(registers, i);
    SliceSplit(registers, i, end);
    ConcatEqual(ExpandRun(Run(registers[i], registers[end - 1])), ExpandRuns(Runs(registers, end)),
                registers[i..end], registers[end..]);
  }

  lemma CrossedRun(registers: seq<string>, i: nat)
    requires AllNames(registers) && i < |registers|
    requires Uncrossed(registers, RunEnd(registers, i + 1)) && !Uncrossed(registers, i)
    ensures var end := RunEnd(registers, i + 1);
            ExpandRun(Run(registers[i], registers[end - 1])) != registers[i..end]
  {
    hide ExpandRun, RunEnd, AllNames, Uncrossed;
    var end := RunEnd(registers, i + 1);
    if ExpandRun(Run(registers[i], registers[end - 1])) == registers[i..end] {
      KeptRunIsUncrossed(registers, i);
    }
  }

  lemma SliceSplit<T>(s: seq<T>, i: nat, k: nat)
    requires i <= k <= |s|
    ensures s[i..] == s[i..k] + s[k..]
  {
  }

  lemma ConcatEqual<T>(a: seq<T>, b: seq<T>, c: seq<T>, d: seq<T>)
    requires |a| == |c|
    ensures a + b == c + d <==> a == c && b == d
  {
    if a + b == c + d {
      assert a == (a + b)[..|a|] && c == (c + d)[..|a|];
      assert b == (a + b)[|a|..] && d == (c + d)[|a|..];
    }
  }

  lemma CompressionKeepsNames(registers: seq<string>)
    requires AllNames(registers)
    ensures Expand(AppendRuns("", Runs(registers, 0))) == registers <==> Uncrossed(registers, 0)
  {
    RunsAreNamed(registers, 0);
    ReadRunsInverse(Runs(registers, 0));
    ExpandRunsNames(registers, 0);
    assert registers[0..] == registers;
  }

  // ---- masks ----

  /** 1 << i */
  function Single(i: nat): word
    requires i < 16
  {
    1 << i
  }

  predicate HasBit(mask: word, i: nat)
    requires i < 16
  {
    mask & Single(i) != 0
  }

  function NameOf(i: nat): (s: string)
    requires i < 16
    ensures IsName(s) && ExtractRegNum(s) == (if i < 8 then i else i - 8) && s[0] == if i < 8 then 'D' else 'A'
  {
    if i < 8 then ['D', Digit(i)] else ['A', Digit(i - 8)]
  }

  /** Names of the set bits from `lo` up to `hi`, in order. */
  function Names(mask: word, lo: nat, hi: nat): (s: seq<string>)
    requires hi <= 16
    ensures AllNames(s)
  {
    if hi <= lo then [] else Names(mask, lo, hi - 1) + (if HasBit(mask, hi - 1) then [NameOf(hi - 1)] else [])
  }

  function RegisterNames(mask: word): seq<string> {
    Names(mask, 0, 8) + Names(mask, 8, 16)
  }

  function RegisterListText(mask: word): string {
    AppendRuns("", Runs(RegisterNames(mask), 0))
  }

  method FormatRegisterList(regListMask: word) returns (text: string, registers: seq<string>)
    ensures registers == RegisterNames(regListMask)
    ensures text == RegisterListText(regListMask)
  {
    registers := [];
    for i := 0 to 8
      invariant registers == Names(regListMask, 0, i)
    {
      if regListMask & Single(i) != 0 {
        registers := registers + [['D', Digit(i)]];
      }
    }
    for i := 0 to 8
      invariant registers == Names(regListMask, 0, 8) + Names(regListMask, 8, 8 + i)
    {
      if regListMask & Single(8 + i) != 0 {
        registers := registers + [['A', Digit(i)]];
      }
    }
    text := FormatRegisterRange(registers);
  }

  /** The mask bit a register name stands for. */
  function BitOf(name: string): int {
    var n := ExtractRegNum(name);
    if n >= 0 && name[0] == 'A' then 8 + n else n
  }

  function BitsOf(registers: seq<string>): set<int> {
    set i | 0 <= i < |registers| :: BitOf(registers[i])
  }

  function BitsOfMask(mask: word): set<int> {
    set i | 0 <= i < 16 && HasBit(mask, i)
  }

  lemma {:induction false} NamesHaveBits(mask: word, lo: nat, hi: nat)
    requires hi <= 16
    ensures forall k :: 0 <= k < |Names(mask, lo, hi)| ==>
              var b := BitOf(Names(mask, lo, hi)[k]);
              lo <= b < hi && HasBit(mask, b)
  {
    if lo < hi {
      NamesHaveBits(mask, lo, hi - 1);
    }
  }

  lemma {:induction false} BitsHaveNames(mask: word, lo: nat, hi: nat, b: nat)
    requires lo <= b < hi <= 16 && HasBit(mask, b)
    ensures exists k :: 0 <= k < |Names(mask, lo, hi)| && BitOf(Names(mask, lo, hi)[k]) == b
  {
    if b == hi - 1 {
      var names := Names(mask, lo, hi);
      assert BitOf(names[|names| - 1]) == b;
    } else {
      BitsHaveNames(mask, lo, hi - 1, b);
      var front := Names(mask, lo, hi - 1);
      var k :| 0 <= k < |front| && BitOf(front[k]) == b;
      assert BitOf(Names(mask, lo, hi)[k]) == b;
    }
  }

  /** The names of a mask stand for exactly its bits. */
  lemma BitsOfRegisterNames(mask: word)
    ensures BitsOf(RegisterNames(mask)) == BitsOfMask(mask)
  {
    hide Names, HasBit, BitOf;
    var d, a := Names(mask, 0, 8), Names(mask, 8, 16);
    NamesHaveBits(mask, 0, 8);
    NamesHaveBits(mask, 8, 16);
    forall b | b in BitsOfMask(mask)
      ensures b in BitsOf(d + a)
    {
      if b < 8 {
        BitsHaveNames(mask, 0, 8, b);
        var k :| 0 <= k < |d| && BitOf(d[k]) == b;
        assert BitOf((d + a)[k]) == b;
      } else {
        BitsHaveNames(mask, 8, 16, b);
        var k :| 0 <= k < |a| && BitOf(a[k]) == b;
        assert BitOf((d + a)[|d| + k]) == b;
      }
    }
    forall b | b in BitsOf(d + a)
      ensures b in BitsOfMask(mask)
    {
      var k :| 0 <= k < |d + a| && BitOf((d + a)[k]) == b;
      assert (d + a)[k] == if k < |d| then d[k] else a[k - |d|];
    }
  }

  lemma BitInRange(mask: word, lo: nat, hi: nat, k: nat)
    requires hi <= 16 && k < |Names(mask, lo, hi)|
    ensures lo <= BitOf(Names(mask, lo, hi)[k]) < hi
  {
    hide HasBit, BitOf, Names;
    NamesHaveBits(mask, lo, hi);
  }

  lemma {:induction false} NamesAscend(mask: word, lo: nat, hi: nat, i: nat, j: nat)
    requires hi <= 16 && i < j < |Names(mask, lo, hi)|
    ensures BitOf(Names(mask, lo, hi)[i]) < BitOf(Names(mask, lo, hi)[j])
  {
    hide HasBit, BitOf;
    var front := Names(mask, lo, hi - 1);
    if j < |front| {
      NamesAscend(mask, lo, hi - 1, i, j);
    } else {
      BitInRange(mask, lo, hi - 1, i);
      NameOfBit(hi - 1);
    }
  }

  lemma NameOfBit(i: nat)
    requires i < 16
    ensures BitOf(NameOf(i)) == i
  {
  }

  /** The names of a mask come in the order of its bits: D0 to D7, then A0 to A7. */
  lemma RegisterNamesAscend(mask: word, i: nat, j: nat)
    requires i < j < |RegisterNames(mask)|
    ensures BitOf(RegisterNames(mask)[i]) < BitOf(RegisterNames(mask)[j])
  {
    hide Names, HasBit, BitOf;
    var n := |Names(mask, 0, 8)|;
    if j < n {
      NamesAscend(mask, 0, 8, i, j);
    } else if i >= n {
      NamesAscend(mask, 8, 16, i - n, j - n);
    } else {
      BitInRange(mask, 0, 8, i);
      BitInRange(mask, 8, 16, j - n);
    }
  }

  /** A mask is determined by its bits. */
  lemma MaskOfBits(m1: word, m2: word)
    requires BitsOfMask(m1) == BitsOfMask(m2)
    ensures m1 == m2
  {
    forall i: nat | i < 16
      ensures HasBit(m1, i) == HasBit(m2, i)
    {
      assert i in BitsOfMask(m1) <==> i in BitsOfMask(m2);
    }
    SameBits(m1, m2);
  }

  lemma SameBits(m1: word, m2: word)
    requires forall i: nat :: i < 16 ==> HasBit(m1, i) == HasBit(m2, i)
    ensures m1 == m2
  {
    SameLowBits(m1, m2);
    SameHighBits(m1, m2);
    SameLiteralBits(m1, m2);
  }

  lemma BitAt(m1: word, m2: word, i: nat, bit: word)
    requires i < 16 && Single(i) == bit
    requires forall i: nat :: i < 16 ==> HasBit(m1, i) == HasBit(m2, i)
    ensures (m1 & bit != 0) == (m2 & bit != 0)
  {
    hide Single;
    assert HasBit(m1, i) == HasBit(m2, i);
  }

  lemma SameLowBits(m1: word, m2: word)
    requires forall i: nat :: i < 16 ==> HasBit(m1, i) == HasBit(m2, i)
    ensures (m1 & 0x1 != 0) == (m2 & 0x1 != 0)
    ensures (m1 & 0x2 != 0) == (m2 & 0x2 != 0)
    ensures (m1 & 0x4 != 0) == (m2 & 0x4 != 0)
    ensures (m1 & 0x8 != 0) == (m2 & 0x8 != 0)
    ensures (m1 & 0x10 != 0) == (m2 & 0x10 != 0)
    ensures (m1 & 0x20 != 0) == (m2 & 0x20 != 0)
    ensures (m1 & 0x40 != 0) == (m2 & 0x40 != 0)
    ensures (m1 & 0x80 != 0) == (m2 & 0x80 != 0)
  {
    BitAt(m1, m2, 0, 0x1);
    BitAt(m1, m2, 1, 0x2);
    BitAt(m1, m2, 2, 0x4);
    BitAt(m1, m2, 3, 0x8);
    BitAt(m1, m2, 4, 0x10);
    BitAt(m1, m2, 5, 0x20);
    BitAt(m1, m2, 6, 0x40);
    BitAt(m1, m2, 7, 0x80);
  }

  lemma SameHighBits(m1: word, m2: word)
    requires forall i: nat :: i < 16 ==> HasBit(m1, i) == HasBit(m2, i)
    ensures (m1 & 0x100 != 0) == (m2 & 0x100 != 0)
    ensures (m1 & 0x200 != 0) == (m2 & 0x200 != 0)
    ensures (m1 & 0x400 != 0) == (m2 & 0x400 != 0)
    ensures (m1 & 0x800 != 0) == (m2 & 0x800 != 0)
    ensures (m1 & 0x1000 != 0) == (m2 & 0x1000 != 0)
    ensures (m1 & 0x2000 != 0) == (m2 & 0x2000 != 0)
    ensures (m1 & 0x4000 != 0) == (m2 & 0x4000 != 0)
    ensures (m1 & 0x8000 != 0) == (m2 & 0x8000 != 0)
  {
    BitAt(m1, m2, 8, 0x100);
    BitAt(m1, m2, 9, 0x200);
    BitAt(m1, m2, 10, 0x400);
    BitAt(m1, m2, 11, 0x800);
    BitAt(m1, m2, 12, 0x1000);
    BitAt(m1, m2, 13, 0x2000);
    BitAt(m1, m2, 14, 0x4000);
    BitAt(m1, m2, 15, 0x8000);
  }

  lemma SameLiteralBits(m1: word, m2: word)
    requires (m1 & 0x1 != 0) == (m2 & 0x1 != 0) && (m1 & 0x2 != 0) == (m2 & 0x2 != 0)
    requires (m1 & 0x4 != 0) == (m2 & 0x4 != 0) && (m1 & 0x8 != 0) == (m2 & 0x8 != 0)
    requires (m1 & 0x10 != 0) == (m2 & 0x10 != 0) && (m1 & 0x20 != 0) == (m2 & 0x20 != 0)
    requires (m1 & 0x40 != 0) == (m2 & 0x40 != 0) && (m1 & 0x80 != 0) == (m2 & 0x80 != 0)
    requires (m1 & 0x100 != 0) == (m2 & 0x100 != 0) && (m1 & 0x200 != 0) == (m2 & 0x200 != 0)
    requires (m1 & 0x400 != 0) == (m2 & 0x400 != 0) && (m1 & 0x800 != 0) == (m2 & 0x800 != 0)
    requires (m1 & 0x1000 != 0) == (m2 & 0x1000 != 0) && (m1 & 0x2000 != 0) == (m2 & 0x2000 != 0)
    requires (m1 & 0x4000 != 0) == (m2 & 0x4000 != 0) && (m1 & 0x8000 != 0) == (m2 & 0x8000 != 0)
    ensures m1 == m2
  {
  }

  /** Lowest and highest set bit between `lo` and `hi`, or -1. */
  function Lowest(mask: word, lo: nat, hi: nat): (r: int)
    requires hi <= 16
    ensures r == -1 || lo <= r < hi
  {
    if hi <= lo then -1
    else if Lowest(mask, lo, hi - 1) >= 0 then Lowest(mask, lo, hi - 1)
    else if HasBit(mask, hi - 1) then hi - 1 else -1
  }

  function Highest(mask: word, lo: nat, hi: nat): (r: int)
    requires hi <= 16
    ensures r == -1 || lo <= r < hi
  {
    if hi <= lo then -1 else if HasBit(mask, hi - 1) then hi - 1 else Highest(mask, lo, hi - 1)
  }

  /** The last D register of the list and its first A register have consecutive numbers. */
  predicate Crosses(mask: word) {
    Highest(mask, 0, 8) >= 0 && Lowest(mask, 8, 16) == Highest(mask, 0, 8) + 9
  }

  lemma {:induction false} NamesEnds(mask: word, lo: nat, hi: nat)
    requires hi <= 16
    ensures var s := Names(mask, lo, hi);
            && (s == [] <==> Lowest(mask, lo, hi) == -1)
            && (s == [] <==> Highest(mask, lo, hi) == -1)
            && (s != [] ==> s[0] == NameOf(Lowest(mask, lo, hi)) && s[|s| - 1] == NameOf(Highest(mask, lo, hi)))
  {
    if lo < hi {
      NamesEnds(mask, lo, hi - 1);
    }
  }

  lemma {:induction false} NamesLetter(mask: word, lo: nat, hi: nat)
    requires hi <= 16 && (hi <= 8 || 8 <= lo)
    ensures forall i :: 0 <= i < |Names(mask, lo, hi)| ==> Names(mask, lo, hi)[i][0] == if hi <= 8 then 'D' else 'A'
  {
    if lo < hi {
      if hi != 9 {
        NamesLetter(mask, lo, hi - 1);
      } else {
        assert Names(mask, lo, 8) == [];
      }
    }
  }

  /** The only place where letters meet is between the last D and the first A register. */
  lemma LettersMeetOnce(d: seq<string>, a: seq<string>)
    requires AllNames(d) && AllNames(a) && AllNames(d + a)
    requires forall i :: 0 <= i < |d| ==> d[i][0] == 'D'
    requires forall i :: 0 <= i < |a| ==> a[i][0] == 'A'
    ensures Uncrossed(d + a, 0) <==> d == [] || a == [] || !Consecutive(d[|d| - 1], a[0])
  {
    var all := d + a;
    assert forall i :: 0 <= i < |d| ==> all[i] == d[i];
    assert forall i :: 0 <= i < |a| ==> all[|d| + i] == a[i];
    if d != [] && a != [] {
      assert all[|d| - 1] == d[|d| - 1] && all[|d|] == a[0];
    }
  }

  lemma NamesConsecutive(h: nat, l: nat)
    requires h < 8 <= l < 16
    ensures Consecutive(NameOf(h), NameOf(l)) <==> l == h + 9
  {
  }

  lemma CrossesMeaning(mask: word)
    ensures AllNames(RegisterNames(mask))
    ensures Uncrossed(RegisterNames(mask), 0) <==> !Crosses(mask)
  {
    var d, a := Names(mask, 0, 8), Names(mask, 8, 16);
    NamesEnds(mask, 0, 8);
    NamesEnds(mask, 8, 16);
    NamesLetter(mask, 0, 8);
    NamesLetter(mask, 8, 16);
    LettersMeetOnce(d, a);
    if d != [] && a != [] {
      NamesConsecutive(Highest(mask, 0, 8), Lowest(mask, 8, 16));
    }
  }

  /** A register list printed for a MOVEM mask reads back to the mask's registers exactly when the
      mask does not cross; then the mask itself is recovered. */
  lemma MaskRoundTrip(mask: word)
    ensures Expand(RegisterListText(mask)) == RegisterNames(mask) <==> !Crosses(mask)
    ensures !Crosses(mask) ==> BitsOf(Expand(RegisterListText(mask))) == BitsOfMask(mask)
  {
    CrossesMeaning(mask);
    CompressionKeepsNames(RegisterNames(mask));
    BitsOfRegisterNames(mask);
  }
}
