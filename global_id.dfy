/**
 * `extractId`: the numeric id at the end of a global id such as
 * `gid://shopify/Order/4512`, read by the regular expression `/\/(\d+)$/`
 * and converted with `parseInt(…, 10)`.
 */
module GlobalId {
  import opened Wrappers

  /** `\d` without the `u` flag: an ASCII decimal digit. */
  predicate IsDigit(c: char)
  {
    '0' <= c <= '9'
  }

  predicate AllDigits(s: string)
  {
    forall i :: 0 <= i < |s| ==> IsDigit(s[i])
  }

  /** `parseInt(s, 10)` of a run of decimal digits (leading zeros are ignored). */
  function DecimalValue(s: string): nat
    requires AllDigits(s)
  {
    if s == [] then 0
    else DecimalValue(s[..|s| - 1]) * 10 + (s[|s| - 1] as int - '0' as int)
  }

  /** The decimal text of `n`, as `String(n)` writes it. */
  function Decimal(n: nat): (s: string)
    ensures 1 <= |s| && AllDigits(s)
  {
    if n < 10 then [('0' as int + n) as char]
    else Decimal(n / 10) + [('0' as int + n % 10) as char]
  }

  /** Reading back the decimal text of a number gives the number. */
  lemma {:induction false} DecimalRoundTrip(n: nat)
    ensures DecimalValue(Decimal(n)) == n
  {
    if n >= 10 {
      DecimalRoundTrip(n / 10);
      var s := Decimal(n);
      assert s[..|s| - 1] == Decimal(n / 10);
    }
  }

  /** The regular expression `/\/(\d+)$/` matches `s` with its slash at index `p`. */
  ghost predicate MatchAt(s: string, p: int)
  {
    0 <= p && p + 1 < |s| && s[p] == '/' && AllDigits(s[p + 1..])
  }

  /** The length of the longest run of digits that ends `s`. */
  function DigitRun(s: string): (n: nat)
    ensures n <= |s|
    ensures forall i :: |s| - n <= i < |s| ==> IsDigit(s[i])
    ensures n < |s| ==> !IsDigit(s[|s| - n - 1])
    decreases |s|
  {
    if s == [] || !IsDigit(s[|s| - 1]) then 0
    else
      var init := s[..|s| - 1];
      var m := DigitRun(init);
      assert forall i :: |init| - m <= i < |init| ==> s[i] == init[i];
      m + 1
  }

  /**
   * `extractId(gid)`: the value of the digits after the final slash when the
   * regular expression matches, and `null` otherwise. The two ensures clauses
   * say that this agrees with the regular expression in both directions.
   */
  function ExtractId(gid: string): (r: Option<nat>)
    ensures r.Some? <==> exists p :: MatchAt(gid, p)
    ensures forall p :: MatchAt(gid, p) ==> r == Some(DecimalValue(gid[p + 1..]))
  {
    var n := DigitRun(gid);
    var tail := gid[|gid| - n..];
    assert AllDigits(tail) by {
      forall i | 0 <= i < |tail|
        ensures IsDigit(tail[i])
      {
        assert tail[i] == gid[|gid| - n + i];
      }
    }
    var r := if 0 < n < |gid| && gid[|gid| - n - 1] == '/'
      then Some(DecimalValue(gid[|gid| - n..])) else None;
    assert r.Some? ==> MatchAt(gid, |gid| - n - 1);
    assert forall p :: MatchAt(gid, p) ==> p == |gid| - n - 1;
    r
  }

  /** A global id ending in a slash and the decimal text of `n` yields `n`. */
  lemma ExtractIdRoundTrip(prefix: string, n: nat)
    ensures ExtractId(prefix + "/" + Decimal(n)) == Some(n)
  {
    var s := prefix + "/" + Decimal(n);
    assert s[|prefix| + 1..] == Decimal(n);
    assert MatchAt(s, |prefix|);
    DecimalRoundTrip(n);
  }

  /**
   * When the text after the last slash is empty or holds any character other
   * than a digit, there is no id.
   */
  lemma ExtractIdRejects(head: string, tail: string)
    requires '/' !in tail
    requires tail == [] || !AllDigits(tail)
    ensures ExtractId(head + "/" + tail) == None
  {
    var s := head + "/" + tail;
    forall p | 0 <= p && p + 1 < |s| && s[p] == '/'
      ensures !AllDigits(s[p + 1..])
    {
      if p < |head| {
        assert s[p + 1..][|head| - p - 1] == '/';
      } else if p == |head| {
        assert s[p + 1..] == tail;
      }
    }
  }
}
