/**
 * String helpers of the bot: lower-casing of addresses and of the start-up mode,
 * `str.strip`, `str.split(",")`, the parsing of the comma-separated wallet list,
 * and the abbreviated display form of an address.
 */
module Text {

  /** Python's `str.lower`, restricted to the ASCII letters (other characters are kept). */
  function LowerChar(c: char): (d: char)
  {
    if 'A' <= c <= 'Z' then (c as int + 32) as char else c
  }

  function Lower(s: string): (r: string)
    ensures |r| == |s|
    ensures forall i :: 0 <= i < |s| ==> r[i] == LowerChar(s[i])
  {
    if s == [] then [] else [LowerChar(s[0])] + Lower(s[1..])
  }

  /** Lower-casing twice is lower-casing once. */
  lemma LowerIdempotent(s: string)
    ensures Lower(Lower(s)) == Lower(s)
  {
    var l := Lower(s);
    assert forall i :: 0 <= i < |l| ==> LowerChar(l[i]) == l[i];
  }

  /** The characters for which Python's `str.isspace` holds: what `str.strip()` removes. */
  const WhiteSpace: string := "\U{0009}\U{000A}\U{000B}\U{000C}\U{000D}\U{001C}\U{001D}\U{001E}\U{001F}\U{0020}\U{0085}\U{00A0}\U{1680}\U{2000}\U{2001}\U{2002}\U{2003}\U{2004}\U{2005}\U{2006}\U{2007}\U{2008}\U{2009}\U{200A}\U{2028}\U{2029}\U{202F}\U{205F}\U{3000}"

  predicate IsSpace(c: char)
  {
    Occurs(c, WhiteSpace)
  }

  /** `c in cs`, spelled out character by character. */
  predicate Occurs(c: char, cs: string)
  {
    cs != [] && (cs[0] == c || Occurs(c, cs[1..]))
  }

  /** The number of white-space characters `s` starts with. */
  function LeadingSpaces(s: string): (n: nat)
    ensures n <= |s|
    ensures forall k :: 0 <= k < n ==> IsSpace(s[k])
    ensures n < |s| ==> !IsSpace(s[n])
  {
    if s != [] && IsSpace(s[0]) then 1 + LeadingSpaces(s[1..]) else 0
  }

  /** The number of white-space characters `s` ends with. */
  function TrailingSpaces(s: string): (n: nat)
    ensures n <= |s|
    ensures forall k :: |s| - n <= k < |s| ==> IsSpace(s[k])
    ensures n < |s| ==> !IsSpace(s[|s| - 1 - n])
  {
    if s != [] && IsSpace(s[|s| - 1]) then 1 + TrailingSpaces(s[..|s| - 1]) else 0
  }

  /** Python's `str.strip()` with no argument. */
  function Strip(s: string): (r: string)
  {
    var t := s[LeadingSpaces(s)..];
    t[..|t| - TrailingSpaces(t)]
  }

  /**
   * What `Strip` returns is the slice of `s` between its leading and its trailing
   * white space: everything cut away on either side is white space, and what is
   * left starts and ends with a character that is not.
   */
  lemma StripIsSlice(s: string) returns (i: nat, j: nat)
    ensures i <= j <= |s| && Strip(s) == s[i..j]
    ensures forall k :: 0 <= k < i ==> IsSpace(s[k])
    ensures forall k :: j <= k < |s| ==> IsSpace(s[k])
    ensures i < j ==> !IsSpace(s[i]) && !IsSpace(s[j - 1])
  {
    i := LeadingSpaces(s);
    var t := s[i..];
    var n := TrailingSpaces(t);
    j := |s| - n;
    if i < j {
      assert t[|t| - 1 - n] == s[j - 1];
    }
    forall k | j <= k < |s|
      ensures IsSpace(s[k])
    {
      assert t[k - i] == s[k];
    }
  }

  /** Stripping a stripped string changes nothing. */
  lemma StripIdempotent(s: string)
    ensures Strip(Strip(s)) == Strip(s)
  {
    var i, j := StripIsSlice(s);
    var r := Strip(s);
    if r != [] {
      assert r[0] == s[i] && r[|r| - 1] == s[j - 1];
      assert LeadingSpaces(r) == 0;
      assert TrailingSpaces(r) == 0;
    }
  }

  /** A character that is not in `s` is not in `Strip(s)`. */
  lemma StripKeepsOut(s: string, c: char)
    requires c !in s
    ensures c !in Strip(s)
  {
    var i, j := StripIsSlice(s);
    assert forall k :: 0 <= k < j - i ==> Strip(s)[k] == s[i + k];
  }

  /** Python's `s.split(sep)`: the pieces between separators, always at least one. */
  function Split(s: string, sep: char): (parts: seq<string>)
    ensures |parts| >= 1
  {
    if s == [] then [""]
    else
      var rest := Split(s[1..], sep);
      if s[0] == sep then [""] + rest else [[s[0]] + rest[0]] + rest[1..]
  }

  /** `sep.join(parts)`. */
  function Join(parts: seq<string>, sep: char): (s: string)
    requires |parts| >= 1
  {
    if |parts| == 1 then parts[0] else parts[0] + [sep] + Join(parts[1..], sep)
  }

  /** No piece of a split contains the separator. */
  lemma {:induction false} SplitPiecesHaveNoSeparator(s: string, sep: char)
    ensures forall p :: p in Split(s, sep) ==> sep !in p
  {
    if s != [] {
      SplitPiecesHaveNoSeparator(s[1..], sep);
    }
  }

  /** Joining the pieces again with the separator gives back the input. */
  lemma {:induction false} SplitJoin(s: string, sep: char)
    ensures Join(Split(s, sep), sep) == s
  {
    if s != [] {
      var rest := Split(s[1..], sep);
      SplitJoin(s[1..], sep);
      if s[0] == sep {
        assert Split(s, sep) == [""] + rest;
        assert Join(Split(s, sep), sep) == [sep] + Join(rest, sep);
      } else if |rest| == 1 {
        assert Split(s, sep) == [[s[0]] + rest[0]];
      } else {
        var parts := Split(s, sep);
        assert parts[1..] == rest[1..];
        assert Join(parts, sep) == [s[0]] + rest[0] + [sep] + Join(rest[1..], sep);
      }
    }
  }

  /** Splitting at one separator splits the two sides independently. */
  lemma {:induction false} SplitAtSeparator(a: string, b: string, sep: char)
    ensures Split(a + [sep] + b, sep) == Split(a, sep) + Split(b, sep)
  {
    if a == [] {
      assert [sep] + b == a + [sep] + b;
      assert ([sep] + b)[1..] == b;
    } else {
      assert (a + [sep] + b)[1..] == a[1..] + [sep] + b;
      SplitAtSeparator(a[1..], b, sep);
    }
  }

  /** The stripped, non-empty pieces, in their order. */
  function KeepStripped(parts: seq<string>): (ws: seq<string>)
  {
    if parts == [] then []
    else
      Keep(Strip(parts[0])) + KeepStripped(parts[1..])
  }

  function Keep(w: string): (ws: seq<string>)
  {
    if w != "" then [w] else []
  }

  lemma {:induction false} KeepStrippedAppend(p: seq<string>, q: seq<string>)
    ensures KeepStripped(p + q) == KeepStripped(p) + KeepStripped(q)
  {
    if p == [] {
      assert p + q == q;
    } else {
      var pq := p + q;
      var h := Keep(Strip(p[0]));
      assert pq[0] == p[0] && pq[1..] == p[1..] + q;
      assert KeepStripped(pq) == h + KeepStripped(p[1..] + q);
      KeepStrippedAppend(p[1..], q);
      assert h + (KeepStripped(p[1..]) + KeepStripped(q)) == (h + KeepStripped(p[1..])) + KeepStripped(q);
    }
  }

  lemma {:induction false} KeepStrippedElements(parts: seq<string>, c: char)
    requires forall p :: p in parts ==> c !in p
    ensures forall w :: w in KeepStripped(parts) ==> w != "" && Strip(w) == w && c !in w
  {
    if parts != [] {
      StripIdempotent(parts[0]);
      StripKeepsOut(parts[0], c);
      KeepStrippedElements(parts[1..], c);
    }
  }

  /** The configured wallet list: `[w.strip() for w in raw.split(",") if w.strip()]`. */
  function ParseWallets(raw: string): (ws: seq<string>)
  {
    KeepStripped(Split(raw, ','))
  }

  /** Every parsed wallet is non-empty, already stripped, and holds no comma. */
  lemma ParsedWalletsAreClean(raw: string)
    ensures forall w :: w in ParseWallets(raw) ==> w != "" && Strip(w) == w && ',' !in w
  {
    SplitPiecesHaveNoSeparator(raw, ',');
    KeepStrippedElements(Split(raw, ','), ',');
  }

  /**
   * The wallets before a comma come first, in their order, then those after it:
   * parsing keeps the order in which the addresses appear in the input.
   */
  lemma ParseWalletsAtComma(a: string, b: string)
    ensures ParseWallets(a + "," + b) == ParseWallets(a) + ParseWallets(b)
  {
    SplitAtSeparator(a, b, ',');
    KeepStrippedAppend(Split(a, ','), Split(b, ','));
  }

  /** Text without a comma is one wallet, or none if it is blank. */
  lemma {:induction false} ParseWalletsNoComma(raw: string)
    requires ',' !in raw
    ensures ParseWallets(raw) == if Strip(raw) == "" then [] else [Strip(raw)]
  {
    SplitNoSeparator(raw, ',');
    assert [raw][1..] == [];
    assert KeepStripped([raw]) == Keep(Strip(raw)) + KeepStripped([]);
  }

  lemma {:induction false} SplitNoSeparator(s: string, sep: char)
    requires sep !in s
    ensures Split(s, sep) == [s]
  {
    if s != [] {
      SplitNoSeparator(s[1..], sep);
      assert [s[0]] + s[1..] == s;
    }
  }

  function Min(a: int, b: int): (m: int) { if a < b then a else b }

  /**
   * The abbreviated display form of an address: an em dash for the empty address,
   * else the first six and the last four characters of the lower-cased address
   * around "..." (Python's `a[:6]` and `a[-4:]`, which clip at the ends).
   */
  function Short(addr: string): (r: string)
    ensures addr == "" ==> r == "—"
    ensures addr != "" ==> |r| == Min(6, |addr|) + 3 + Min(4, |addr|)
    ensures addr != "" ==>
      && r[..Min(6, |addr|)] == Lower(addr)[..Min(6, |addr|)]
      && r[Min(6, |addr|)..Min(6, |addr|) + 3] == "..."
      && r[Min(6, |addr|) + 3..] == Lower(addr)[|addr| - Min(4, |addr|)..]
  {
    if addr == "" then "—"
    else
      var a := Lower(addr);
      a[..Min(6, |a|)] + "..." + a[|a| - Min(4, |a|)..]
  }

  /** For an address of at least four characters the display form has min(6, n) + 7 characters. */
  lemma ShortLength(addr: string)
    requires |addr| >= 4
    ensures |Short(addr)| == Min(6, |addr|) + 7
  {
  }

  /** The display form ignores the case of the address. */
  lemma ShortIgnoresCase(addr: string)
    ensures Short(Lower(addr)) == Short(addr)
  {
    LowerIdempotent(addr);
  }
}
