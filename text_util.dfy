/**
 * The two text helpers of pritunl/utils.py: `get_cert_block`, which cuts
 * the first PEM certificate out of a bundle (encapsulation boundaries as in
 * section 2 of RFC 7468), and `filter_str`, which keeps only the characters
 * allowed in a name.
 */
module TextUtil {
  import opened Wrappers
  import opened PyStr

  const BeginMarker: string := "-----BEGIN CERTIFICATE-----"
  const EndMarker: string := "-----END CERTIFICATE-----"

  /**
   * `get_cert_block`: the text from the first BEGIN marker up to the end of
   * the first END marker (a Python slice, so empty when END comes too early).
   * A missing marker is the ValueError of `str.index`, here None.
   */
  function GetCertBlock(data: string): (r: Option<string>)
    ensures r.Some? <==> (exists j :: OccursAt(data, BeginMarker, j)) && (exists j :: OccursAt(data, EndMarker, j))
  {
    match (Index(data, BeginMarker), Index(data, EndMarker))
    case (Some(b), Some(e)) =>
      var stop := e + |EndMarker|;
      Some(if b <= stop then data[b..stop] else "")
    case _ =>
      assert Index(data, BeginMarker).None? || Index(data, EndMarker).None?;
      None
  }

  /** An END marker cannot start at, or one character after, a BEGIN marker. */
  lemma EndNotNearBegin(data: string, b: nat, e: nat)
    requires OccursAt(data, BeginMarker, b) && OccursAt(data, EndMarker, e)
    requires b <= e
    ensures e >= b + 2
  {
    assert data[b + 5] == data[b..b + |BeginMarker|][5] == 'B';
    assert data[e + 4] == data[e..e + |EndMarker|][4] == '-';
    assert data[e + 5] == data[e..e + |EndMarker|][5] == 'E';
  }

  /** The slice from a BEGIN marker to the end of a later END marker is framed by both. */
  lemma FramedSlice(data: string, b: nat, e: nat)
    requires OccursAt(data, BeginMarker, b) && OccursAt(data, EndMarker, e)
    requires b <= e
    ensures var block := data[b..e + |EndMarker|];
      |block| >= |BeginMarker| &&
      block[..|BeginMarker|] == BeginMarker &&
      block[|block| - |EndMarker|..] == EndMarker
  {
    EndNotNearBegin(data, b, e);
    var block := data[b..e + |EndMarker|];
    assert block[..|BeginMarker|] == data[b..b + |BeginMarker|];
    assert block[|block| - |EndMarker|..] == data[e..e + |EndMarker|];
  }

  /**
   * When both markers occur and the first END is not before the first BEGIN,
   * the block starts with the BEGIN marker and ends with the END marker.
   */
  lemma CertBlockFramed(data: string)
    requires Index(data, BeginMarker).Some? && Index(data, EndMarker).Some?
    requires Index(data, BeginMarker).value <= Index(data, EndMarker).value
    ensures GetCertBlock(data).Some?
    ensures var block := GetCertBlock(data).value;
      |block| >= |BeginMarker| &&
      block[..|BeginMarker|] == BeginMarker &&
      block[|block| - |EndMarker|..] == EndMarker
  {
    FramedSlice(data, Index(data, BeginMarker).value, Index(data, EndMarker).value);
  }


  /** `str.isalnum` restricted to ASCII. */
  predicate IsAlnum(c: char) {
    ('0' <= c <= '9') || ('a' <= c <= 'z') || ('A' <= c <= 'Z')
  }

  /** A character `filter_str` keeps, for the name-safe characters `safe`. */
  predicate Keep(c: char, safe: string) {
    IsAlnum(c) || c in safe
  }

  /** The join of the comprehension: the kept characters of `s`, in order. */
  function Filter(s: string, safe: string): (r: string)
    ensures |r| <= |s|
    ensures forall i :: 0 <= i < |r| ==> Keep(r[i], safe)
  {
    if s == [] then []
    else if Keep(s[0], safe) then [s[0]] + Filter(s[1..], safe)
    else Filter(s[1..], safe)
  }

  /**
   * `filter_str`: None (or any falsy value) and "" come back as they are;
   * otherwise the filtered text.
   */
  function FilterStr(input: Option<string>, safe: string): (r: Option<string>)
    ensures input.None? ==> r.None?
    ensures input == Some("") ==> r == Some("")
    ensures r.Some? <==> input.Some?
    ensures r.Some? ==> forall i :: 0 <= i < |r.value| ==> Keep(r.value[i], safe)
  {
    match input
    case None => None
    case Some(s) => if s == "" then input else Some(Filter(s, safe))
  }

  /** `sub` is `s` with some characters removed (order kept). */
  predicate Subsequence(sub: string, s: string)
    decreases |s|
  {
    if sub == [] then true
    else if s == [] then false
    else if sub[0] == s[0] then Subsequence(sub[1..], s[1..])
    else Subsequence(sub, s[1..])
  }

  lemma {:induction false} FilterIsSubsequence(s: string, safe: string)
    ensures Subsequence(Filter(s, safe), s)
  {
    if s != [] {
      FilterIsSubsequence(s[1..], safe);
      if !Keep(s[0], safe) {
        SubsequenceDropFront(Filter(s[1..], safe), s);
      }
    }
  }

  /** A subsequence of the tail is a subsequence of the whole. */
  lemma {:induction false} SubsequenceDropFront(sub: string, s: string)
    requires s != [] && Subsequence(sub, s[1..])
    ensures Subsequence(sub, s)
    decreases |s|, 0
  {
    if sub != [] && sub[0] == s[0] {
      assert s[1..] != [];
      if sub[0] == s[1] {
        assert Subsequence(sub[1..], s[1..][1..]);
        SubsequenceDropFront(sub[1..], s[1..]);
      } else {
        SubsequenceDropHead(sub, s[1..]);
      }
    }
  }

  /** Dropping the first character of `sub` keeps it a subsequence. */
  lemma {:induction false} SubsequenceDropHead(sub: string, s: string)
    requires sub != [] && Subsequence(sub, s)
    ensures Subsequence(sub[1..], s)
    decreases |s|, 1
  {
    assert s != [];
    if sub[0] == s[0] {
      SubsequenceDropFront(sub[1..], s);
    } else {
      SubsequenceDropHead(sub, s[1..]);
      SubsequenceDropFront(sub[1..], s);
    }
  }

  /** Every kept character occurs as often in the output as in the input; the others vanish. */
  lemma {:induction false} FilterCounts(s: string, safe: string, c: char)
    ensures multiset(Filter(s, safe))[c] == if Keep(c, safe) then multiset(s)[c] else 0
  {
    if s != [] {
      FilterCounts(s[1..], safe, c);
      assert s == [s[0]] + s[1..];
    }
  }

  /** Text made only of kept characters passes through unchanged. */
  lemma {:induction false} FilterFixpoint(s: string, safe: string)
    requires forall i :: 0 <= i < |s| ==> Keep(s[i], safe)
    ensures Filter(s, safe) == s
  {
    if s != [] {
      FilterFixpoint(s[1..], safe);
    }
  }

  /** Filtering twice is filtering once. */
  lemma FilterStrIdempotent(input: Option<string>, safe: string)
    ensures FilterStr(FilterStr(input, safe), safe) == FilterStr(input, safe)
  {
    if input.Some? && input.value != "" {
      FilterFixpoint(Filter(input.value, safe), safe);
    }
  }

  /**
   * For a non-empty input, the output is a subsequence of it holding exactly
   * the kept characters with their multiplicities.
   */
  lemma FilterStrContents(s: string, safe: string, c: char)
    requires s != ""
    ensures FilterStr(Some(s), safe).Some?
    ensures Subsequence(FilterStr(Some(s), safe).value, s)
    ensures multiset(FilterStr(Some(s), safe).value)[c] == if Keep(c, safe) then multiset(s)[c] else 0
  {
    FilterIsSubsequence(s, safe);
    FilterCounts(s, safe, c);
  }
}
