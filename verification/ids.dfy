/**
 * Sequential human-readable identifiers: a fixed prefix followed by a zero-padded number,
 * the next one derived from the lexicographically greatest existing id.
 */
module Ids {
  import opened Wrappers

  /**
   * Lexicographic order of strings by character code, the order in which the store
   * sorts the text primary keys (a proper prefix sorts first).
   */
  predicate StrLe(a: string, b: string) {
    if |a| == 0 then true
    else if |b| == 0 then false
    else a[0] < b[0] || (a[0] == b[0] && StrLe(a[1..], b[1..]))
  }

  lemma {:induction false} StrLeTotal(a: string, b: string)
    ensures StrLe(a, b) || StrLe(b, a)
    decreases |a|
  {
    if |a| > 0 && |b| > 0 && a[0] == b[0] {
      StrLeTotal(a[1..], b[1..]);
    }
  }

  lemma {:induction false} StrLeRefl(a: string)
    ensures StrLe(a, a)
    decreases |a|
  {
    if |a| > 0 {
      StrLeRefl(a[1..]);
    }
  }

  lemma {:induction false} StrLeTrans(a: string, b: string, c: string)
    requires StrLe(a, b) && StrLe(b, c)
    ensures StrLe(a, c)
    decreases |a|
  {
    if |a| > 0 && |b| > 0 && |c| > 0 && a[0] == b[0] && b[0] == c[0] {
      StrLeTrans(a[1..], b[1..], c[1..]);
    }
  }

  lemma {:induction false} StrLeAntisymmetric(a: string, b: string)
    requires StrLe(a, b) && StrLe(b, a)
    ensures a == b
    decreases |a|
  {
    if |a| > 0 && |b| > 0 {
      StrLeAntisymmetric(a[1..], b[1..]);
      assert a == [a[0]] + a[1..] && b == [b[0]] + b[1..];
    }
  }

  /** A prefix sorts no later than any string it begins. */
  lemma {:induction false} StrLePrefix(a: string, b: string)
    requires |a| <= |b| && b[..|a|] == a
    ensures StrLe(a, b)
    decreases |a|
  {
    if |a| > 0 {
      assert b[1..][..|a| - 1] == a[1..];
      StrLePrefix(a[1..], b[1..]);
    }
  }

  /** Two strings that agree up to position `k` and differ there are ordered by that character. */
  lemma {:induction false} StrLeFirstDifference(a: string, b: string, k: nat)
    requires k < |a| && k < |b| && a[..k] == b[..k] && a[k] != b[k]
    ensures StrLe(a, b) <==> a[k] < b[k]
    decreases k
  {
    if k > 0 {
      assert a[0] == a[..k][0] && b[0] == b[..k][0];
      assert a[1..][..k - 1] == a[..k][1..] && b[1..][..k - 1] == b[..k][1..];
      StrLeFirstDifference(a[1..], b[1..], k - 1);
    }
  }

  /** The id that sorts last (`ORDER BY id DESC`, first row). */
  function GreatestId(ids: seq<string>): (g: string)
    requires |ids| > 0
    ensures g in ids
    ensures forall i :: 0 <= i < |ids| ==> StrLe(ids[i], g)
  {
    if |ids| == 1 then StrLeRefl(ids[0]); ids[0]
    else
      var g' := GreatestId(ids[..|ids| - 1]);
      var last := ids[|ids| - 1];
      StrLeTotal(last, g');
      StrLeRefl(last);
      if StrLe(last, g') then g'
      else
        assert forall i :: 0 <= i < |ids| - 1 ==> StrLe(ids[i], last) by {
          forall i | 0 <= i < |ids| - 1
            ensures StrLe(ids[i], last)
          {
            assert ids[i] == ids[..|ids| - 1][i];
            StrLeTrans(ids[i], g', last);
          }
        }
        last
  }

  predicate IsDigit(c: char) {
    '0' <= c <= '9'
  }

  predicate AllDigits(s: string) {
    forall i :: 0 <= i < |s| ==> IsDigit(s[i])
  }

  function DigitValue(c: char): nat
    requires IsDigit(c)
  {
    (c as int) - ('0' as int)
  }

  function DigitChar(d: nat): (c: char)
    requires d < 10
    ensures IsDigit(c) && DigitValue(c) == d
  {
    ((('0' as int) + d) as char)
  }

  /**
   * Python's `int()` on a string of ASCII decimal digits; any other string
   * (including the empty one) is rejected.
   */
  function ParseNat(s: string): (r: Option<nat>)
    ensures r.Some? <==> |s| > 0 && AllDigits(s)
  {
    if |s| == 0 || !IsDigit(s[|s| - 1]) then None
    else if |s| == 1 then Some(DigitValue(s[0]))
    else match ParseNat(s[..|s| - 1])
      case None => None
      case Some(v) => Some(v * 10 + DigitValue(s[|s| - 1]))
  }

  /** The decimal digits of `n`, without leading zeros. */
  function Decimal(n: nat): (r: string)
    ensures |r| > 0 && AllDigits(r)
    ensures n > 0 ==> r[0] != '0'
    ensures n < 10 <==> |r| == 1
    decreases n
  {
    if n < 10 then [DigitChar(n)] else Decimal(n / 10) + [DigitChar(n % 10)]
  }

  lemma {:induction false} DecimalRoundTrip(n: nat)
    ensures ParseNat(Decimal(n)) == Some(n)
    decreases n
  {
    if n >= 10 {
      DecimalRoundTrip(n / 10);
      var r := Decimal(n);
      assert r[..|r| - 1] == Decimal(n / 10);
    }
  }

  function Zeros(k: nat): (z: string)
    ensures |z| == k && AllDigits(z)
    ensures forall i :: 0 <= i < k ==> z[i] == '0'
  {
    seq(k, _ => '0')
  }

  lemma {:induction false} ParseZeros(k: nat)
    requires k > 0
    ensures ParseNat(Zeros(k)) == Some(0)
    decreases k
  {
    if k > 1 {
      ParseZeros(k - 1);
      assert Zeros(k)[..k - 1] == Zeros(k - 1);
    }
  }

  /** Leading zeros do not change the value `int()` reads. */
  lemma {:induction false} ParseLeadingZeros(k: nat, s: string)
    requires |s| > 0 && AllDigits(s)
    ensures ParseNat(Zeros(k) + s) == ParseNat(s)
    decreases |s|
  {
    var t := Zeros(k) + s;
    if |s| == 1 {
      if k > 0 {
        assert t[..|t| - 1] == Zeros(k);
        ParseZeros(k);
      }
    } else {
      assert t[..|t| - 1] == Zeros(k) + s[..|s| - 1];
      ParseLeadingZeros(k, s[..|s| - 1]);
    }
  }

  /** Python's `f'{n:03d}'` for a natural number: decimal, left-padded with zeros to width 3. */
  function Format03(n: nat): (r: string)
    ensures |r| >= 3 && AllDigits(r)
    ensures |r| == 3 || r[0] != '0'
    ensures ParseNat(r) == Some(n)
  {
    var d := Decimal(n);
    DecimalRoundTrip(n);
    if |d| >= 3 then d
    else
      ParseLeadingZeros(3 - |d|, d);
      Zeros(3 - |d|) + d
  }

  /** Python's `s[k:]`: empty when `s` is shorter than `k`. */
  function Suffix(s: string, k: nat): (r: string)
    ensures |s| >= k ==> s == s[..k] + r
    ensures |s| < k ==> r == ""
  {
    if |s| >= k then s[k..] else ""
  }

  /**
   * The next identifier: `prefix + "001"` when there are no ids; otherwise the number
   * after the first |prefix| characters of the greatest id, plus one, formatted with
   * `%03d` after `prefix`. `None` when that suffix is not a number (`int()` raises).
   */
  function NextId(prefix: string, ids: seq<string>): (r: Option<string>)
    ensures |ids| == 0 ==> r == Some(prefix + "001")
    ensures |ids| > 0 ==> (r.Some? <==> ParseNat(Suffix(GreatestId(ids), |prefix|)).Some?)
    ensures r.Some? ==> |r.value| >= |prefix| + 3 && r.value[..|prefix|] == prefix
    ensures r.Some? ==> |r.value| == |prefix| + 3 || r.value[|prefix|] != '0'
    ensures |ids| > 0 && r.Some? ==>
      ParseNat(Suffix(r.value, |prefix|)) == Some(ParseNat(Suffix(GreatestId(ids), |prefix|)).value + 1)
  {
    if |ids| == 0 then
      Prefixed(prefix, "001");
      Some(prefix + "001")
    else match ParseNat(Suffix(GreatestId(ids), |prefix|))
      case None => None
      case Some(v) =>
        var f := Format03(v + 1);
        Prefixed(prefix, f);
        Some(prefix + f)
  }

  /** How an id built as `prefix + f` splits back into its prefix and number. */
  lemma Prefixed(prefix: string, f: string)
    ensures |prefix + f| == |prefix| + |f|
    ensures (prefix + f)[..|prefix|] == prefix
    ensures Suffix(prefix + f, |prefix|) == f
    ensures |f| > 0 ==> (prefix + f)[|prefix|] == f[0]
  {
    assert (prefix + f)[|prefix|..] == f;
  }

  /** The first id is the formatting of 1, the number an empty table is treated as ending at 0. */
  lemma FirstIdIsOne(prefix: string)
    ensures NextId(prefix, []) == Some(prefix + Format03(1))
  {
    assert Decimal(1) == "1";
    assert Format03(1) == "001";
  }

  /** The number an id carries after the prefix, when it is a well-formed number. */
  predicate HasNumber(prefix: string, id: string) {
    |id| >= |prefix| && id[..|prefix|] == prefix && ParseNat(Suffix(id, |prefix|)).Some?
  }

  function NumberOf(prefix: string, id: string): nat
    requires HasNumber(prefix, id)
  {
    ParseNat(Suffix(id, |prefix|)).value
  }

  /** The greatest number among the ids that carry one, or 0 when none does. */
  function MaxNumber(prefix: string, ids: seq<string>): (r: nat)
    ensures forall i :: 0 <= i < |ids| && HasNumber(prefix, ids[i]) ==> NumberOf(prefix, ids[i]) <= r
  {
    if |ids| == 0 then 0
    else
      var rest := MaxNumber(prefix, ids[..|ids| - 1]);
      var last := ids[|ids| - 1];
      if HasNumber(prefix, last) && NumberOf(prefix, last) > rest then NumberOf(prefix, last) else rest
  }

  /** The greatest number is attained: it is 0 or the number of some id. */
  lemma {:induction false} MaxNumberAttained(prefix: string, ids: seq<string>)
    ensures MaxNumber(prefix, ids) == 0
         || exists i :: 0 <= i < |ids| && HasNumber(prefix, ids[i]) && NumberOf(prefix, ids[i]) == MaxNumber(prefix, ids)
    decreases |ids|
  {
    if |ids| > 0 {
      var ids' := ids[..|ids| - 1];
      MaxNumberAttained(prefix, ids');
      var last := ids[|ids| - 1];
      if !(HasNumber(prefix, last) && NumberOf(prefix, last) == MaxNumber(prefix, ids)) && MaxNumber(prefix, ids) != 0 {
        var i :| 0 <= i < |ids'| && HasNumber(prefix, ids'[i]) && NumberOf(prefix, ids'[i]) == MaxNumber(prefix, ids');
        assert ids[i] == ids'[i];
      }
    }
  }

  /**
   * Allocation by numeric rather than lexicographic maximum: one more than the greatest
   * number carried by any existing id. The result never collides with an existing id.
   */
  function NextIdByNumber(prefix: string, ids: seq<string>): (r: string)
    ensures r !in ids
    ensures HasNumber(prefix, r) && NumberOf(prefix, r) == MaxNumber(prefix, ids) + 1
  {
    var r := prefix + Format03(MaxNumber(prefix, ids) + 1);
    assert Suffix(r, |prefix|) == Format03(MaxNumber(prefix, ids) + 1);
    assert r[..|prefix|] == prefix;
    r
  }

  /** With no ids at all, the corrected allocator starts at `prefix + "001"`, as `NextId` does. */
  lemma NextIdByNumberFirst(prefix: string)
    ensures NextIdByNumber(prefix, []) == prefix + "001"
  {
    assert Decimal(1) == "1";
  }

  lemma Parse999()
    ensures ParseNat("999") == Some(999)
  {
    assert ParseNat("9") == Some(9);
    assert "99"[..1] == "9";
    assert ParseNat("99") == Some(99);
    assert "999"[..2] == "99";
  }

  lemma Format1000()
    ensures Format03(1000) == "1000"
  {
    assert Decimal(1) == "1";
    assert Decimal(10) == "10";
    assert Decimal(100) == "100";
    assert Decimal(1000) == "1000";
  }

  /** After "PROD999" the allocator produces "PROD1000", four digits wide. */
  lemma NextIdAfter999()
    ensures NextId("PROD", ["PROD999"]) == Some("PROD1000")
  {
    assert Suffix("PROD999", 4) == "999";
    Parse999();
    Format1000();
    assert "PROD" + "1000" == "PROD1000";
  }

  /**
   * The allocator as written hands out an id that is already in use: "PROD1000" sorts
   * before "PROD999", so once both exist the greatest id is still "PROD999".
   */
  lemma NextIdCollides()
    ensures NextId("PROD", ["PROD999", "PROD1000"]) == Some("PROD1000")
    ensures "PROD1000" in ["PROD999", "PROD1000"]
  {
    var ids := ["PROD999", "PROD1000"];
    assert StrLe("PROD1000", "PROD999");
    assert GreatestId(ids) == "PROD999";
    assert Suffix("PROD999", 4) == "999";
    Parse999();
    Format1000();
    assert "PROD" + "1000" == "PROD1000";
  }
}
