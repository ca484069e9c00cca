/**
 * Order numbers `ORD-<year>-NNNNN`: the next number of a year is read from
 * the greatest id of that year, incremented and written with at least five
 * digits.
 */
module OrderIds {
  import opened Wrappers
  import opened Exceptions
  import opened Text
  import opened Decimal
  import opened Sequences

  /** `$"ORD-{year}-"`. */
  function Prefix(year: nat): string {
    "ORD-" + NatToString(year) + "-"
  }

  function HasPrefix(p: string): string -> bool {
    id => StartsWith(id, p)
  }

  /** The ids the generator looks at: those of the current year. */
  function YearIds(ids: seq<string>, year: nat): seq<string> {
    Filter(ids, HasPrefix(Prefix(year)))
  }

  /** The first row of `OrderByDescending(id)` under ordinal comparison. */
  function OrdinalMax(ids: seq<string>): (m: string)
    requires |ids| > 0
    ensures m in ids
    ensures forall i :: 0 <= i < |ids| ==> OrdinalLeq(ids[i], m)
    decreases |ids|
  {
    if |ids| == 1 then ids[0]
    else
      var m := OrdinalMax(ids[1..]);
      assert forall i :: 1 <= i < |ids| ==> OrdinalLeq(ids[i], m) by {
        forall i | 1 <= i < |ids| ensures OrdinalLeq(ids[i], m) {
          assert ids[i] == ids[1..][i - 1];
        }
      }
      OrdinalTotal(ids[0], m);
      if OrdinalLess(m, ids[0]) then
        assert forall i :: 0 <= i < |ids| ==> OrdinalLeq(ids[i], ids[0]) by {
          forall i | 0 <= i < |ids| ensures OrdinalLeq(ids[i], ids[0]) {
            if i > 0 && ids[i] != m {
              OrdinalLessTransitive(ids[i], m, ids[0]);
            }
          }
        }
        ids[0]
      else
        m
  }

  /**
   * `GenerateOrderIdAsync`: `ORD-<year>-00001` for the first order of a year,
   * otherwise the suffix of the greatest id of the year parsed with
   * `int.Parse`, plus one with 32-bit wrap-around, in the `D5` format.
   */
  function GenerateOrderId(ids: seq<string>, year: nat): (r: Result<string, Exception>)
    ensures r.Ok? ==> StartsWith(r.value, Prefix(year))
    ensures r.Err? ==> (r.error.Format? || r.error.Overflow?) && |YearIds(ids, year)| > 0
  {
    var p := Prefix(year);
    var same := YearIds(ids, year);
    if |same| == 0 then
      assert (p + "00001")[..|p|] == p;
      Ok(p + "00001")
    else
      var last := OrdinalMax(same);
      assert StartsWith(last, p);
      var parsed := ParseInt32(last[|p|..]);
      if parsed.Err? then Err(parsed.error) else Ok(Successor(p, parsed.value))
  }

  /** `$"{prefix}{(lastNumber + 1):D5}"`, with C#'s unchecked Int32 addition. */
  function Successor(p: string, lastNumber: int): string {
    p + FormatD5(Wrap32(lastNumber + 1))
  }

  /**
   * What the successor id says: the prefix, then the decimal text of the
   * next number, which `int.Parse` reads back; five digits while the
   * number stays below 99999, and a negative number once the addition
   * wraps.
   */
  lemma SuccessorReadsBack(p: string, lastNumber: int)
    ensures var id := Successor(p, lastNumber);
            && StartsWith(id, p)
            && ParseInt32(id[|p|..]) == Ok(Wrap32(lastNumber + 1))
            && (-1 <= lastNumber < 99999 ==>
                  |id| == |p| + 5 && AllDigits(id[|p|..]) && Value(id[|p|..]) == lastNumber + 1)
    ensures var next, t := Wrap32(lastNumber + 1), Successor(p, lastNumber)[|p|..];
            && (next >= 0 ==> |t| >= 5 && AllDigits(t) && Value(t) == next)
            && (next < 0 ==> |t| >= 6 && t[0] == '-' && AllDigits(t[1..]) && Value(t[1..]) == -next)
    ensures lastNumber == Int32Max ==> Wrap32(lastNumber + 1) == Int32Min
  {
    var t := FormatD5(Wrap32(lastNumber + 1));
    NextNumberText(lastNumber);
    FormatD5Digits(Wrap32(lastNumber + 1));
    var id := p + t;
    assert id[..|p|] == p && id[|p|..] == t;
  }

  /** The `D5` text of the next number: read back by `int.Parse`, five digits below 99999, negative after the wrap. */
  lemma NextNumberText(lastNumber: int)
    ensures var next, t := Wrap32(lastNumber + 1), FormatD5(Wrap32(lastNumber + 1));
            && ParseInt32(t) == Ok(next)
            && (-1 <= lastNumber < 99999 ==> |t| == 5 && next == lastNumber + 1)
            && (lastNumber == Int32Max ==> next == Int32Min)
  {
    var next := Wrap32(lastNumber + 1);
    ParseFormatD5(next);
    if -1 <= lastNumber < 99999 {
      FormatD5FiveDigits(next);
    }
    if lastNumber == Int32Max {
      WrapAtMax();
    }
  }

  /** `int.MaxValue + 1` wraps to `int.MinValue`. */
  lemma WrapAtMax()
    ensures Wrap32(Int32Max + 1) == Int32Min
  {
    assert (Int32Max + 1 - Int32Min) % 0x1_0000_0000 == 0;
  }

  /** The row the generator's query loads, and the context then tracks: the greatest id of the year, if any. */
  function ReadRow(ids: seq<string>, year: nat): (r: seq<string>)
    ensures r == [] <==> |YearIds(ids, year)| == 0
    ensures |r| <= 1 && (|r| == 1 ==> r[0] == OrdinalMax(YearIds(ids, year)))
  {
    if |YearIds(ids, year)| == 0 then [] else [OrdinalMax(YearIds(ids, year))]
  }

  /**
   * The generated id is never the row the generator read: parsing its
   * suffix gives the read number plus one, which differs from that number
   * even when the addition wraps.
   */
  lemma GeneratedIdIsNotTheReadRow(ids: seq<string>, year: nat)
    ensures GenerateOrderId(ids, year).Ok? ==> GenerateOrderId(ids, year).value !in ReadRow(ids, year)
  {
    var p := Prefix(year);
    var same := YearIds(ids, year);
    if |same| > 0 && GenerateOrderId(ids, year).Ok? {
      var last := OrdinalMax(same);
      var parsed := ParseInt32(last[|p|..]);
      assert parsed.Ok?;
      var id := Successor(p, parsed.value);
      SuccessorReadsBack(p, parsed.value);
      assert GenerateOrderId(ids, year).value == id;
      assert id != last;
    }
  }

  /** With no id of the year yet, numbering starts at 00001. */
  lemma FirstOfYear(ids: seq<string>, year: nat)
    requires forall i :: 0 <= i < |ids| ==> !StartsWith(ids[i], Prefix(year))
    ensures GenerateOrderId(ids, year) == Ok(Prefix(year) + "00001")
  {
    FilterNone(ids, HasPrefix(Prefix(year)));
  }

  /** A suffix as the generator itself writes it while numbers stay below 99999. */
  predicate IsSerial(suffix: string) {
    |suffix| == 5 && AllDigits(suffix) && Value(suffix) < 99999
  }

  predicate SerialYearIds(ids: seq<string>, year: nat) {
    forall i :: 0 <= i < |ids| && StartsWith(ids[i], Prefix(year)) ==> IsSerial(ids[i][|Prefix(year)|..])
  }

  /** The property the generated id has: unused, above every id of its year, five digits after the prefix. */
  predicate FreshAmong(r: Result<string, Exception>, ids: seq<string>, year: nat) {
    && r.Ok? && r.value !in ids
    && (forall i :: 0 <= i < |ids| && StartsWith(ids[i], Prefix(year)) ==> OrdinalLess(ids[i], r.value))
    && |r.value| == |Prefix(year)| + 5 && AllDigits(r.value[|Prefix(year)|..])
  }

  /**
   * While every id of the year carries a five-digit number below 99999, the
   * generated id is ordinally greater than each of them, so it is unused.
   */
  lemma GeneratedIdIsFresh(ids: seq<string>, year: nat)
    requires SerialYearIds(ids, year)
    ensures FreshAmong(GenerateOrderId(ids, year), ids, year)
  {
    if |YearIds(ids, year)| == 0 {
      FirstIdIsFresh(ids, year);
    } else {
      NextIdIsFresh(ids, year);
    }
  }

  /** An id of the prefix's year that is among the ids is among the ids of the year. */
  lemma InYearIds(ids: seq<string>, year: nat, i: nat)
    requires i < |ids| && StartsWith(ids[i], Prefix(year))
    ensures ids[i] in YearIds(ids, year)
  {
    var same := YearIds(ids, year);
    assert multiset(same)[ids[i]] == multiset(ids)[ids[i]] > 0;
  }

  lemma FirstIdIsFresh(ids: seq<string>, year: nat)
    requires |YearIds(ids, year)| == 0
    ensures FreshAmong(GenerateOrderId(ids, year), ids, year)
  {
    var p := Prefix(year);
    var r := GenerateOrderId(ids, year);
    forall i | 0 <= i < |ids| ensures !StartsWith(ids[i], p) {
      if StartsWith(ids[i], p) {
        InYearIds(ids, year, i);
      }
    }
    assert r == Ok(p + "00001");
    assert (p + "00001")[|p|..] == "00001";
  }

  lemma NextIdIsFresh(ids: seq<string>, year: nat)
    requires |YearIds(ids, year)| > 0 && SerialYearIds(ids, year)
    ensures FreshAmong(GenerateOrderId(ids, year), ids, year)
  {
    var p := Prefix(year);
    var same := YearIds(ids, year);
    var r := GenerateOrderId(ids, year);
    var last := OrdinalMax(same);
    assert StartsWith(last, p);
    assert last in multiset(ids);
    var s := last[|p|..];
    assert IsSerial(s);
    ParseDigits(s);
    var n := Value(s);
    assert r == Ok(Successor(p, n));
    var t := SerialSuccessor(p, n);
    assert last == p + s;
    forall i | 0 <= i < |ids| && StartsWith(ids[i], p) ensures OrdinalLess(ids[i], r.value) {
      InYearIds(ids, year, i);
      BelowNext(ids[i], p, s, t);
    }
    if r.value in ids {
      var i :| 0 <= i < |ids| && ids[i] == r.value;
      OrdinalLessIrreflexive(r.value);
    }
  }

  /** Below 99999 the successor is the prefix followed by five digits denoting the next number. */
  lemma SerialSuccessor(p: string, n: int) returns (t: string)
    requires 0 <= n < 99999
    ensures Successor(p, n) == p + t && |t| == 5 && AllDigits(t) && Value(t) == n + 1
  {
    SuccessorReadsBack(p, n);
    t := Successor(p, n)[|p|..];
    assert Successor(p, n) == p + t;
  }

  /** One id of the year, at most the greatest one, lies below the next number. */
  lemma BelowNext(id: string, p: string, s: string, t: string)
    requires StartsWith(id, p) && IsSerial(id[|p|..]) && IsSerial(s)
    requires OrdinalLeq(id, p + s)
    requires |t| == 5 && AllDigits(t) && Value(t) == Value(s) + 1
    ensures OrdinalLess(id, p + t)
  {
    var u := id[|p|..];
    assert id == p + u;
    OrdinalLessIsNumericLess(u, s);
    OrdinalLessCommonPrefix(p, u, s);
    OrdinalLessIsNumericLess(u, t);
    OrdinalLessCommonPrefix(p, u, t);
  }

  /** The result depends only on the multiset of ids of the year: other years and row order do not matter. */
  lemma OnlyYearIdsMatter(a: seq<string>, b: seq<string>, year: nat)
    requires multiset(YearIds(a, year)) == multiset(YearIds(b, year))
    ensures GenerateOrderId(a, year) == GenerateOrderId(b, year)
  {
    var sa, sb := YearIds(a, year), YearIds(b, year);
    assert |sa| == |multiset(sa)| == |multiset(sb)| == |sb|;
    if |sa| > 0 {
      var ma, mb := OrdinalMax(sa), OrdinalMax(sb);
      assert ma in multiset(sb);
      assert mb in multiset(sa);
      var i :| 0 <= i < |sb| && sb[i] == ma;
      var j :| 0 <= j < |sa| && sa[j] == mb;
      assert OrdinalLeq(ma, mb) && OrdinalLeq(mb, ma);
      if ma != mb {
        OrdinalLessAsymmetric(ma, mb);
      }
    }
  }

  /**
   * Once the greatest id of the year carries the number `n`, the generator
   * returns its successor, whose number reads back as `n + 1`.
   */
  lemma GenerateFromGreatest(ids: seq<string>, year: nat, last: string, n: int)
    requires |YearIds(ids, year)| > 0 && OrdinalMax(YearIds(ids, year)) == last
    requires StartsWith(last, Prefix(year))
    requires ParseInt32(last[|Prefix(year)|..]) == Ok(n)
    ensures GenerateOrderId(ids, year) == Ok(Successor(Prefix(year), n))
    ensures ParseInt32(GenerateOrderId(ids, year).value[|Prefix(year)|..]) == Ok(Wrap32(n + 1))
  {
    SuccessorReadsBack(Prefix(year), n);
  }

  lemma Prefix2025()
    ensures Prefix(2025) == "ORD-2025-"
  {
    assert NatToString(2) == "2";
    assert NatToString(20) == NatToString(2) + "0" == "20";
    assert NatToString(202) == NatToString(20) + "2" == "202";
    assert NatToString(2025) == NatToString(202) + "5" == "2025";
  }

  /** An example of `GenerateFromUnparsable`: an id whose suffix is not a number makes the generator throw a `FormatException`. */
  lemma UnparsableSuffixThrows()
    ensures GenerateOrderId(["ORD-2025-ABCDE"], 2025).Err?
  {
    var id := "ORD-2025-ABCDE";
    assert StartsWith(id, Prefix(2025)) by {
      Prefix2025();
    }
    SingleYearId(id, 2025);
    assert ParseInt32(id[|Prefix(2025)|..]).Err? by {
      Prefix2025();
      assert id[9..] == "ABCDE";
      ParseRejectsLetter("ABCDE");
    }
    GenerateFromUnparsable([id], 2025, id);
  }

  /** The generator throws when the greatest id of the year does not carry a number. */
  lemma GenerateFromUnparsable(ids: seq<string>, year: nat, last: string)
    requires |YearIds(ids, year)| > 0 && OrdinalMax(YearIds(ids, year)) == last
    requires ParseInt32(last[|Prefix(year)|..]).Err?
    ensures GenerateOrderId(ids, year) == Err(ParseInt32(last[|Prefix(year)|..]).error)
  {
  }

  /** A lone id of the year is the greatest id of the year. */
  lemma SingleYearId(id: string, year: nat)
    requires StartsWith(id, Prefix(year))
    ensures YearIds([id], year) == [id] && OrdinalMax(YearIds([id], year)) == id
  {
    assert [id][1..] == [];
  }

  /**
   * Past 99999 the numbering stalls: "100000" sorts below "99999", so the
   * greatest id stays `...-99999` and the generator proposes `...-100000`
   * again, an id already taken.
   */
  lemma NumberingStallsAfter99999()
    ensures var ids := ["ORD-2025-99999", "ORD-2025-100000"];
            GenerateOrderId(ids, 2025) == Ok("ORD-2025-100000") && "ORD-2025-100000" in ids
  {
    var a, b := "ORD-2025-99999", "ORD-2025-100000";
    Prefix2025();
    StallYearIds();
    StallGreatest();
    StallParse();
    StallFormat();
    GenerateFromGreatest([a, b], 2025, a, 99999);
    assert Successor(Prefix(2025), 99999) == Prefix(2025) + FormatD5(Wrap32(99999 + 1));
  }

  /** From `...-99999` alone the generator proposes `...-100000`, after reading the `...-99999` row. */
  lemma StallFirstStep()
    ensures GenerateOrderId(["ORD-2025-99999"], 2025) == Ok("ORD-2025-100000")
    ensures ReadRow(["ORD-2025-99999"], 2025) == ["ORD-2025-99999"]
  {
    var a := "ORD-2025-99999";
    Prefix2025();
    assert StartsWith(a, "ORD-2025-");
    SingleYearId(a, 2025);
    StallParse();
    StallFormat();
    GenerateFromGreatest([a], 2025, a, 99999);
    assert Successor(Prefix(2025), 99999) == Prefix(2025) + FormatD5(Wrap32(99999 + 1));
  }

  lemma StallYearIds()
    ensures YearIds(["ORD-2025-99999", "ORD-2025-100000"], 2025) == ["ORD-2025-99999", "ORD-2025-100000"]
  {
    var a, b := "ORD-2025-99999", "ORD-2025-100000";
    Prefix2025();
    assert StartsWith(a, "ORD-2025-") && StartsWith(b, "ORD-2025-");
    assert [a, b][1..] == [b];
  }

  lemma StallGreatest()
    ensures OrdinalMax(["ORD-2025-99999", "ORD-2025-100000"]) == "ORD-2025-99999"
  {
    var a, b := "ORD-2025-99999", "ORD-2025-100000";
    assert a == "ORD-2025-" + "99999" && b == "ORD-2025-" + "100000";
    assert OrdinalLess("100000", "99999");
    OrdinalLessCommonPrefix("ORD-2025-", "100000", "99999");
    OrdinalLessAsymmetric(b, a);
    assert [a, b][1..] == [b];
  }

  lemma StallParse()
    ensures ParseInt32("ORD-2025-99999"[|Prefix(2025)|..]) == Ok(99999)
  {
    Prefix2025();
    assert "ORD-2025-99999"[9..] == "99999";
    assert Value("99999") == 99999 by {
      assert "99999"[..4] == "9999" && "9999"[..3] == "999" && "999"[..2] == "99" && "99"[..1] == "9";
    }
    ParseDigits("99999");
  }

  lemma StallFormat()
    ensures Prefix(2025) + FormatD5(Wrap32(99999 + 1)) == "ORD-2025-100000"
  {
    assert FormatD5(Wrap32(99999 + 1)) == "100000" by {
      NatToString100000();
      assert PadDigits(100000, 5) == "100000";
      assert Wrap32(100000) == 100000;
    }
    Prefix2025();
  }

  lemma NatToString100000()
    ensures NatToString(100000) == "100000"
  {
    assert NatToString(1) == "1";
    assert NatToString(10) == NatToString(1) + "0" == "10";
    assert NatToString(100) == NatToString(10) + "0" == "100";
    assert NatToString(1000) == NatToString(100) + "0" == "1000";
    assert NatToString(10000) == NatToString(1000) + "0" == "10000";
    assert NatToString(100000) == NatToString(10000) + "0" == "100000";
  }
}
