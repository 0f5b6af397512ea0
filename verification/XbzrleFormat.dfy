/** The format of docs/xbzrle.txt: its lengths, how much a code carries, and the worked example. */
module XbzrleFormat {
  import opened Basics
  import opened Xbzrle

  /** A length is ULEB128: seven bits in each byte, the low ones first, and the top bit set on all but the last. */
  lemma LengthIsUleb(n: nat)
    requires n <= MAX_LENGTH
    ensures var s := Length(n);
            if n < 128 then |s| == 1 && s[0] == n
            else |s| == 2 && 128 <= s[0] && s[1] < 128 && (s[0] as int - 128) + 128 * s[1] as int == n
  {
  }

  // ---------- what a code carries ----------

  /** The positions from i on at which the pages differ. */
  function Changed(prev: seq<Byte>, page: seq<Byte>, i: nat): nat
    requires |prev| == |page| && i <= |page|
    decreases |page| - i
  {
    if i == |page| then 0 else (if prev[i] != page[i] then 1 else 0) + Changed(prev, page, i + 1)
  }

  lemma {:induction false} ChangedOver(prev: seq<Byte>, page: seq<Byte>, i: nat, e: nat, same: bool)
    requires |prev| == |page| && i <= e <= |page| && forall j :: i <= j < e ==> (prev[j] == page[j]) == same
    ensures Changed(prev, page, i) == Changed(prev, page, e) + if same then 0 else e - i
    decreases e - i
  {
    if i < e {
      ChangedOver(prev, page, i + 1, e, same);
    }
  }

  /** The number of runs of changed bytes from i on. */
  function Runs(prev: seq<Byte>, page: seq<Byte>, i: nat): nat
    requires |prev| == |page| && i <= |page|
    decreases |page| - i
  {
    if i == |page| then 0
    else (if prev[i] != page[i] && (i + 1 == |page| || prev[i + 1] == page[i + 1]) then 1 else 0) +
         Runs(prev, page, i + 1)
  }

  lemma {:induction false} RunsOverSame(prev: seq<Byte>, page: seq<Byte>, i: nat, e: nat)
    requires |prev| == |page| && i <= e <= |page| && forall j :: i <= j < e ==> prev[j] == page[j]
    ensures Runs(prev, page, i) == Runs(prev, page, e)
    decreases e - i
  {
    if i < e {
      RunsOverSame(prev, page, i + 1, e);
    }
  }

  lemma {:induction false} RunsOverChanged(prev: seq<Byte>, page: seq<Byte>, i: nat, e: nat)
    requires |prev| == |page| && i < e <= |page| && forall j :: i <= j < e ==> prev[j] != page[j]
    requires e < |page| ==> prev[e] == page[e]
    ensures Runs(prev, page, i) == 1 + Runs(prev, page, e)
    decreases e - i
  {
    if i + 1 < e {
      RunsOverChanged(prev, page, i + 1, e);
    }
  }

  /** Main result: a code carries each changed byte once, and two lengths of one or two bytes for each run. */
  lemma {:induction false} CarriesChanges(prev: seq<Byte>, page: seq<Byte>, i: nat)
    requires |prev| == |page| <= MAX_LENGTH && i <= |page|
    ensures var c, r := Changed(prev, page, i), Runs(prev, page, i);
            c + 2 * r <= |Encoded(prev, page, i)| <= c + 4 * r
    decreases |page| - i
  {
    hide Length, RunEnd, Encoded, Changed, Runs;
    EncodedUnfold(prev, page, i);
    var z := RunEnd(prev, page, i, true);
    ChangedOver(prev, page, i, z, true);
    RunsOverSame(prev, page, i, z);
    if z == |page| {
      NothingLeft(prev, page);
    } else {
      var n := RunEnd(prev, page, z, false);
      ChangedOver(prev, page, z, n, false);
      RunsOverChanged(prev, page, z, n);
      CarriesChanges(prev, page, n);
    }
  }

  lemma NothingLeft(prev: seq<Byte>, page: seq<Byte>)
    requires |prev| == |page|
    ensures Changed(prev, page, |page|) == 0 && Runs(prev, page, |page|) == 0
  {
  }

  // ---------- the worked example ----------

  function Zeros(n: nat): (s: seq<Byte>)
    ensures |s| == n
  {
    seq(n, _ => 0)
  }

  function Old(): (s: seq<Byte>)
    ensures |s| == 4096
  {
    Zeros(1001) + [0x05, 0x06, 0x07, 0x08, 0x09, 0x0a, 0x0b, 0x0c, 0x0d, 0x0e, 0x0f, 0x10, 0x11, 0x12, 0x13, 0x68, 0, 0,
                   0x6b, 0, 0x6d] + Zeros(3074)
  }

  function New(): (s: seq<Byte>)
    ensures |s| == 4096
  {
    Zeros(1001) + [0x01, 0x02, 0x03, 0x04, 0x05, 0x06, 0x07, 0x08, 0x09, 0x0a, 0x0b, 0x0c, 0x0d, 0x0e, 0x0f, 0x68, 0, 0,
                   0x67, 0, 0x69] + Zeros(3074)
  }

  lemma ExampleRuns()
    ensures var a, b := Old(), New();
            && RunEnd(a, b, 0, true) == 1001 && RunEnd(a, b, 1001, false) == 1016
            && RunEnd(a, b, 1016, true) == 1019 && RunEnd(a, b, 1019, false) == 1020
            && RunEnd(a, b, 1020, true) == 1021 && RunEnd(a, b, 1021, false) == 1022
            && RunEnd(a, b, 1022, true) == 4096
  {
    hide RunEnd;
    var a, b := Old(), New();
    RunEndUnique(a, b, 0, true, 1001);
    RunEndUnique(a, b, 1001, false, 1016);
    RunEndUnique(a, b, 1016, true, 1019);
    RunEndUnique(a, b, 1019, false, 1020);
    RunEndUnique(a, b, 1020, true, 1021);
    RunEndUnique(a, b, 1021, false, 1022);
    RunEndUnique(a, b, 1022, true, 4096);
  }

  lemma ExampleBytes()
    ensures New()[1001..1016] ==
            [0x01, 0x02, 0x03, 0x04, 0x05, 0x06, 0x07, 0x08, 0x09, 0x0a, 0x0b, 0x0c, 0x0d, 0x0e, 0x0f]
    ensures New()[1019..1020] == [0x67] && New()[1021..1022] == [0x69]
  {
  }

  lemma ExampleTail()
    ensures Encoded(Old(), New(), 1016) == [0x03, 0x01, 0x67, 0x01, 0x01, 0x69]
  {
    hide RunEnd, Old, New, Encoded;
    ExampleRuns();
    ExampleBytes();
    EncodedUnfold(Old(), New(), 1022);
    EncodedUnfold(Old(), New(), 1020);
    assert Encoded(Old(), New(), 1020) == [0x01, 0x01, 0x69];
    EncodedUnfold(Old(), New(), 1016);
  }

  /** The example of the documentation: 24 bytes for a page of 4096. */
  lemma DocumentedExample()
    ensures Encoded(Old(), New(), 0) ==
            [0xe9, 0x07] + [0x0f] +
            [0x01, 0x02, 0x03, 0x04, 0x05, 0x06, 0x07, 0x08, 0x09, 0x0a, 0x0b, 0x0c, 0x0d, 0x0e, 0x0f] +
            [0x03, 0x01, 0x67, 0x01, 0x01, 0x69]
    ensures |Encoded(Old(), New(), 0)| == 24
  {
    hide RunEnd, Old, New, Encoded, Length;
    ExampleRuns();
    ExampleBytes();
    ExampleTail();
    EncodedUnfold(Old(), New(), 0);
    ExampleLengths();
  }

  lemma ExampleLengths()
    ensures Length(1001) == [0xe9, 0x07] && Length(15) == [0x0f]
  {
  }
}
