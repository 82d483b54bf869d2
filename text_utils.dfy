/**
 * The string helpers of `embedding_utils.py`: document-key sanitising, whitespace
 * normalisation, the blank-piece filter applied after splitting, decimal rendering of
 * integers (for f-strings) and `str.join`.
 */
module TextUtils {

  type String = seq<char>

  // ---------------------------------------------------------------------------
  // Whitespace
  // ---------------------------------------------------------------------------

  /** The characters for which Python's `str.isspace()` holds; `\s` in a `re` pattern
      over `str` matches exactly these, and `str.strip()` removes exactly these. */
  predicate IsSpace(c: char) {
    var n := c as int;
    (0x09 <= n <= 0x0D) || (0x1C <= n <= 0x20) || n == 0x85 || n == 0xA0 || n == 0x1680
    || (0x2000 <= n <= 0x200A) || n == 0x2028 || n == 0x2029 || n == 0x202F
    || n == 0x205F || n == 0x3000
  }

  predicate AllSpace(s: String) {
    forall i :: 0 <= i < |s| ==> IsSpace(s[i])
  }

  /** `s.lstrip()`: drops leading whitespace. Its facts are in `StripLeftFacts`. */
  function StripLeft(s: String): (r: String)
    ensures |r| <= |s|
  {
    if s != [] && IsSpace(s[0]) then StripLeft(s[1..]) else s
  }

  /** `lstrip` returns the longest suffix that does not start with whitespace. */
  lemma {:induction false} StripLeftFacts(s: String)
    ensures var r := StripLeft(s);
      && r == s[|s| - |r|..]
      && (r == [] || !IsSpace(r[0]))
      && AllSpace(s[..|s| - |r|])
  {
    if s != [] && IsSpace(s[0]) {
      StripLeftFacts(s[1..]);
      var r := StripLeft(s);
      assert s[..|s| - |r|] == [s[0]] + s[1..][..|s| - 1 - |r|];
    }
  }

  /** `s.rstrip()`: drops trailing whitespace. Its facts are in `StripRightFacts`. */
  function StripRight(s: String): (r: String)
    ensures |r| <= |s|
  {
    if s != [] && IsSpace(s[|s| - 1]) then StripRight(s[..|s| - 1]) else s
  }

  /** `rstrip` returns the longest prefix that does not end with whitespace. */
  lemma {:induction false} StripRightFacts(s: String)
    ensures var r := StripRight(s);
      && r == s[..|r|]
      && (r == [] || !IsSpace(r[|r| - 1]))
      && AllSpace(s[|r|..])
  {
    if s != [] && IsSpace(s[|s| - 1]) {
      StripRightFacts(s[..|s| - 1]);
      var r := StripRight(s);
      assert s[|r|..] == s[..|s| - 1][|r|..] + [s[|s| - 1]];
    }
  }

  /** Right-stripping never removes a leading non-whitespace character. */
  lemma {:induction false} StripRightKeepsFirst(s: String)
    requires s != [] && !IsSpace(s[0])
    ensures StripRight(s) != []
  {
    if |s| > 1 && IsSpace(s[|s| - 1]) {
      StripRightKeepsFirst(s[..|s| - 1]);
    }
  }

  /** `s.strip()`. */
  function Strip(s: String): String {
    StripRight(StripLeft(s))
  }

  /** The condition `c and c.strip()` of the comprehensions that drop blank pieces. */
  predicate NotBlank(c: String) {
    c != [] && Strip(c) != []
  }

  /** A piece is blank exactly when every one of its characters is whitespace. */
  lemma NotBlankIff(c: String)
    ensures NotBlank(c) <==> exists i :: 0 <= i < |c| && !IsSpace(c[i])
  {
    var l := StripLeft(c);
    StripLeftFacts(c);
    if l != [] {
      StripRightKeepsFirst(l);
      assert c[|c| - |l|] == l[0];
    } else {
      forall i | 0 <= i < |c| ensures IsSpace(c[i]) {
        assert c[i] == c[..|c|][i];
      }
    }
  }

  // ---------------------------------------------------------------------------
  // normalize_text
  // ---------------------------------------------------------------------------

  /** The only whitespace character that occurs is the plain space. */
  predicate PlainSpaces(s: String) {
    forall i :: 0 <= i < |s| && IsSpace(s[i]) ==> s[i] == ' '
  }

  /** No two whitespace characters are adjacent. */
  predicate NoAdjacentSpaces(s: String) {
    forall i :: 0 < i < |s| && IsSpace(s[i]) ==> !IsSpace(s[i - 1])
  }

  /** The shape `normalize_text` promises: no whitespace at either end, none but `' '`
      inside, and never two in a row. */
  predicate IsNormal(s: String) {
    PlainSpaces(s) && NoAdjacentSpaces(s)
    && (s != [] ==> !IsSpace(s[0]) && !IsSpace(s[|s| - 1]))
  }

  /** `re.sub(r'\s+', ' ', s)`: every maximal whitespace run becomes one space. */
  function Collapse(s: String): (r: String)
    ensures PlainSpaces(r) && NoAdjacentSpaces(r)
    ensures r == [] <==> s == []
    ensures r != [] ==> (IsSpace(r[0]) <==> IsSpace(s[0]))
    ensures r != [] ==> (IsSpace(r[|r| - 1]) <==> IsSpace(s[|s| - 1]))
    decreases |s|
  {
    if s == [] then []
    else if IsSpace(s[0]) then
      var rest := StripLeft(s);
      StripLeftFacts(s);
      assert s[0] == s[..|s| - |rest|][0];
      [' '] + Collapse(rest)
    else [s[0]] + Collapse(s[1..])
  }

  /** `normalize_text`. */
  function Normalize(s: String): String {
    Strip(Collapse(s))
  }

  /** The non-whitespace characters of `s`, in order. */
  function Visible(s: String): String {
    if s == [] then [] else (if IsSpace(s[0]) then [] else [s[0]]) + Visible(s[1..])
  }

  lemma {:induction false} VisibleAppend(a: String, b: String)
    ensures Visible(a + b) == Visible(a) + Visible(b)
  {
    if a != [] {
      assert (a + b)[0] == a[0];
      assert (a + b)[1..] == a[1..] + b;
      VisibleAppend(a[1..], b);
    } else {
      assert a + b == b;
    }
  }

  lemma {:induction false} VisibleAllSpace(s: String)
    requires AllSpace(s)
    ensures Visible(s) == []
  {
    if s != [] {
      VisibleAllSpace(s[1..]);
    }
  }

  /** Stripping drops whitespace only. */
  lemma VisibleStrip(s: String)
    ensures Visible(Strip(s)) == Visible(s)
  {
    var l := StripLeft(s);
    StripLeftFacts(s);
    assert s == s[..|s| - |l|] + l;
    VisibleAppend(s[..|s| - |l|], l);
    VisibleAllSpace(s[..|s| - |l|]);
    var r := StripRight(l);
    StripRightFacts(l);
    assert l == r + l[|r|..];
    VisibleAppend(r, l[|r|..]);
    VisibleAllSpace(l[|r|..]);
  }

  /** Collapsing whitespace runs keeps every visible character, in order. */
  lemma {:induction false} VisibleCollapse(s: String)
    ensures Visible(Collapse(s)) == Visible(s)
    decreases |s|
  {
    if s == [] {
    } else if IsSpace(s[0]) {
      var rest := StripLeft(s);
      StripLeftFacts(s);
      var pre := s[..|s| - |rest|];
      assert s[0] == pre[0];
      assert s == pre + rest;
      VisibleAppend(pre, rest);
      VisibleAllSpace(pre);
      VisibleCollapse(rest);
      VisibleAppend([' '], Collapse(rest));
    } else {
      assert s == [s[0]] + s[1..];
      VisibleAppend([s[0]], s[1..]);
      VisibleCollapse(s[1..]);
      VisibleAppend([s[0]], Collapse(s[1..]));
    }
  }

  /** `normalize_text` only ever changes whitespace: the visible characters survive, in
      order. */
  lemma NormalizeKeepsVisible(s: String)
    ensures Visible(Normalize(s)) == Visible(s)
  {
    VisibleCollapse(s);
    VisibleStrip(Collapse(s));
  }

  /** A contiguous slice keeps the whitespace shape of the string it is cut from. */
  lemma SliceKeepsShape(s: String, lo: nat, hi: nat)
    requires lo <= hi <= |s|
    requires PlainSpaces(s) && NoAdjacentSpaces(s)
    ensures PlainSpaces(s[lo..hi]) && NoAdjacentSpaces(s[lo..hi])
  {
    var t := s[lo..hi];
    forall i | 0 <= i < |t| ensures t[i] == s[lo + i] { }
  }

  /** The result of `normalize_text` has the promised shape. */
  lemma NormalizeIsNormal(s: String)
    ensures IsNormal(Normalize(s))
  {
    var c := Collapse(s);
    var l := StripLeft(c);
    StripLeftFacts(c);
    SliceKeepsShape(c, |c| - |l|, |c|);
    StripRightNormal(l);
  }

  /** Right-stripping a string that already has the shape and no leading whitespace
      makes it normal. */
  lemma StripRightNormal(l: String)
    requires PlainSpaces(l) && NoAdjacentSpaces(l) && (l != [] ==> !IsSpace(l[0]))
    ensures IsNormal(StripRight(l))
  {
    var r := StripRight(l);
    StripRightFacts(l);
    SliceKeepsShape(l, 0, |r|);
    if r != [] {
      assert r[0] == l[0];
    }
  }

  /** A single whitespace character followed by a visible one is all `lstrip` removes. */
  lemma StripLeftSingle(s: String)
    requires s != [] && IsSpace(s[0]) && (|s| > 1 ==> !IsSpace(s[1]))
    ensures StripLeft(s) == s[1..]
  {
    assert s[1..] == [] || !IsSpace(s[1..][0]);
  }

  /** A normal string is left alone by `Collapse`. */
  lemma {:induction false} CollapseNormal(s: String)
    requires PlainSpaces(s) && NoAdjacentSpaces(s)
    ensures Collapse(s) == s
    decreases |s|
  {
    if s != [] {
      SliceKeepsShape(s, 1, |s|);
      CollapseNormal(s[1..]);
      if IsSpace(s[0]) {
        assert |s| > 1 ==> !IsSpace(s[1]);
        StripLeftSingle(s);
        assert Collapse(s) == [' '] + Collapse(s[1..]);
      } else {
        assert Collapse(s) == [s[0]] + Collapse(s[1..]);
      }
    }
  }

  /** A normal string is a fixed point of `normalize_text`. */
  lemma NormalizeFixedPoint(s: String)
    requires IsNormal(s)
    ensures Normalize(s) == s
  {
    CollapseNormal(s);
  }

  /** `normalize_text` is idempotent, which the chunker relies on when it re-normalises
      pieces cut from already normalised text. */
  lemma NormalizeIdempotent(s: String)
    ensures Normalize(Normalize(s)) == Normalize(s)
  {
    NormalizeIsNormal(s);
    NormalizeFixedPoint(Normalize(s));
  }

  lemma {:induction false} VisibleHas(s: String, i: nat)
    requires i < |s| && !IsSpace(s[i])
    ensures Visible(s) != []
  {
    if i > 0 && IsSpace(s[0]) {
      VisibleHas(s[1..], i - 1);
    }
  }

  lemma NormalVisible(n: String)
    requires IsNormal(n)
    ensures n != [] ==> Visible(n) != []
  {
    if n != [] {
      VisibleHas(n, 0);
    }
  }

  /** Normalising a non-blank piece never yields the empty string, and normalising a
      blank one always does. */
  lemma NormalizeEmptyIff(c: String)
    ensures Normalize(c) == [] <==> !NotBlank(c)
  {
    NormalizeKeepsVisible(c);
    NotBlankIff(c);
    var n := Normalize(c);
    if NotBlank(c) {
      var i :| 0 <= i < |c| && !IsSpace(c[i]);
      VisibleHas(c, i);
    } else {
      VisibleAllSpace(c);
      NormalizeIsNormal(c);
      NormalVisible(n);
    }
  }

  // ---------------------------------------------------------------------------
  // chunk_text's post-filter
  // ---------------------------------------------------------------------------

  /** `[x for x in xs if p(x)]`. */
  function Filter<T>(p: T -> bool, xs: seq<T>): (r: seq<T>)
    ensures |r| <= |xs|
  {
    if xs == [] then []
    else (if p(xs[0]) then [xs[0]] else []) + Filter(p, xs[1..])
  }

  /** Nothing that fails `p` survives the filter. */
  lemma {:induction false} FilterHolds<T>(p: T -> bool, xs: seq<T>)
    ensures forall k :: 0 <= k < |Filter(p, xs)| ==> p(Filter(p, xs)[k])
  {
    if xs != [] {
      FilterHolds(p, xs[1..]);
    }
  }

  /** A sequence that satisfies `p` throughout passes through the filter unchanged. */
  lemma {:induction false} FilterNoop<T>(p: T -> bool, xs: seq<T>)
    requires forall k :: 0 <= k < |xs| ==> p(xs[k])
    ensures Filter(p, xs) == xs
  {
    if xs != [] {
      FilterNoop(p, xs[1..]);
    }
  }

  /** The positions of the elements that satisfy `p`, ascending. */
  function KeptIndices<T>(p: T -> bool, xs: seq<T>): seq<nat> {
    if xs == [] then []
    else (if p(xs[0]) then [0] else []) + Shift(KeptIndices(p, xs[1..]))
  }

  function Shift(ks: seq<nat>): (r: seq<nat>)
    ensures |r| == |ks| && forall k :: 0 <= k < |ks| ==> r[k] == ks[k] + 1
  {
    if ks == [] then [] else [ks[0] + 1] + Shift(ks[1..])
  }

  predicate Ascending(ks: seq<nat>) {
    forall a, b :: 0 <= a < b < |ks| ==> ks[a] < ks[b]
  }

  lemma {:induction false} KeptIndicesSelect<T>(p: T -> bool, xs: seq<T>)
    ensures var r, ks := Filter(p, xs), KeptIndices(p, xs);
      && |ks| == |r|
      && (forall k :: 0 <= k < |ks| ==> ks[k] < |xs| && r[k] == xs[ks[k]])
  {
    if xs != [] {
      KeptIndicesSelect(p, xs[1..]);
    }
  }

  lemma {:induction false} KeptIndicesAscend<T>(p: T -> bool, xs: seq<T>)
    ensures Ascending(KeptIndices(p, xs))
  {
    if xs != [] {
      KeptIndicesAscend(p, xs[1..]);
      var ks' := KeptIndices(p, xs[1..]);
      var sh := Shift(ks');
      forall a, b | 0 <= a < b < |sh| ensures sh[a] < sh[b] {
        assert ks'[a] < ks'[b];
      }
      if p(xs[0]) {
        var ks := [0] + sh;
        forall a, b | 0 <= a < b < |ks| ensures ks[a] < ks[b] {
          assert ks[b] == sh[b - 1];
          if a > 0 {
            assert ks[a] == sh[a - 1];
          }
        }
      }
    }
  }

  lemma ShiftMember(ks: seq<nat>, i: nat)
    ensures i in Shift(ks) <==> 0 < i && i - 1 in ks
  {
    if i in Shift(ks) {
      var k :| 0 <= k < |ks| && Shift(ks)[k] == i;
    }
    if 0 < i && i - 1 in ks {
      var k :| 0 <= k < |ks| && ks[k] == i - 1;
      assert Shift(ks)[k] == i;
    }
  }

  lemma {:induction false} KeptIndicesMembers<T>(p: T -> bool, xs: seq<T>)
    ensures var ks := KeptIndices(p, xs);
      forall i :: 0 <= i < |xs| ==> (p(xs[i]) <==> i in ks)
  {
    if xs != [] {
      var ks' := KeptIndices(p, xs[1..]);
      var ks := KeptIndices(p, xs);
      var first: seq<nat> := if p(xs[0]) then [0] else [];
      assert ks == first + Shift(ks');
      forall i | 0 <= i < |xs|
        ensures p(xs[i]) <==> i in ks
      {
        ShiftMember(ks', i);
        if 0 < i {
          KeptIndicesMembers(p, xs[1..]);
          assert xs[i] == xs[1..][i - 1];
          assert i !in first;
        }
      }
    }
  }

  /** `[c for c in pieces if c and c.strip()]` */
  function DropBlank(pieces: seq<String>): (r: seq<String>)
    ensures |r| <= |pieces|
  {
    Filter(NotBlank, pieces)
  }

  /** The filter keeps exactly the non-blank pieces, each unchanged and in the order the
      splitter produced them: the k-th survivor is the piece at the k-th kept position,
      the kept positions ascend, and a position is kept iff the piece there is not
      blank. */
  lemma DropBlankKeeps(pieces: seq<String>)
    ensures var r, ks := DropBlank(pieces), KeptIndices(NotBlank, pieces);
      && |ks| == |r|
      && (forall k :: 0 <= k < |ks| ==> ks[k] < |pieces| && r[k] == pieces[ks[k]])
      && Ascending(ks)
      && (forall i :: 0 <= i < |pieces| ==> (NotBlank(pieces[i]) <==> i in ks))
  {
    KeptIndicesSelect(NotBlank, pieces);
    KeptIndicesAscend(NotBlank, pieces);
    KeptIndicesMembers(NotBlank, pieces);
  }

  /** No blank piece survives the filter. */
  lemma DropBlankNotBlank(pieces: seq<String>)
    ensures forall k :: 0 <= k < |DropBlank(pieces)| ==> NotBlank(DropBlank(pieces)[k])
  {
    FilterHolds(NotBlank, pieces);
  }

  /** Pieces that are already non-blank pass through the filter unchanged. */
  lemma DropBlankNoop(pieces: seq<String>)
    requires forall k :: 0 <= k < |pieces| ==> NotBlank(pieces[k])
    ensures DropBlank(pieces) == pieces
  {
    FilterNoop(NotBlank, pieces);
  }

  /** `[normalize_text(c) for c in pieces]`. */
  function NormalizeAll(pieces: seq<String>): seq<String> {
    seq(|pieces|, k requires 0 <= k < |pieces| => Normalize(pieces[k]))
  }

  /** The list comprehension at the end of `chunk_text`:
      `[normalize_text(c) for c in pieces if c and c.strip()]`. Every chunk it returns is
      non-empty and normal. */
  function FilterChunks(pieces: seq<String>): (r: seq<String>)
    ensures |r| == |DropBlank(pieces)| <= |pieces|
    ensures forall k :: 0 <= k < |r| ==> r[k] != [] && IsNormal(r[k])
  {
    var kept := DropBlank(pieces);
    DropBlankNotBlank(pieces);
    var r := NormalizeAll(kept);
    assert forall k :: 0 <= k < |r| ==> r[k] != [] && IsNormal(r[k]) by {
      forall k | 0 <= k < |r| ensures r[k] != [] && IsNormal(r[k]) {
        NormalizeEmptyIff(kept[k]);
        NormalizeIsNormal(kept[k]);
      }
    }
    r
  }

  /** `chunk_text`: the splitter is an opaque function of the text; only its post-filter
      is modelled. */
  function ChunkText(text: String, split: String -> seq<String>): (r: seq<String>)
    ensures forall k :: 0 <= k < |r| ==> r[k] != [] && IsNormal(r[k])
  {
    FilterChunks(split(text))
  }

  /** Filtering chunks that are already non-empty and normal changes nothing; in
      particular the filter is idempotent. */
  lemma FilterChunksFixedPoint(pieces: seq<String>)
    requires forall k :: 0 <= k < |pieces| ==> pieces[k] != [] && IsNormal(pieces[k])
    ensures FilterChunks(pieces) == pieces
  {
    forall k | 0 <= k < |pieces| ensures NotBlank(pieces[k]) && Normalize(pieces[k]) == pieces[k] {
      NormalizeFixedPoint(pieces[k]);
      NormalizeEmptyIff(pieces[k]);
    }
    DropBlankNoop(pieces);
  }

  lemma FilterChunksIdempotent(pieces: seq<String>)
    ensures FilterChunks(FilterChunks(pieces)) == FilterChunks(pieces)
  {
    FilterChunksFixedPoint(FilterChunks(pieces));
  }

  // ---------------------------------------------------------------------------
  // sanitize_key
  // ---------------------------------------------------------------------------

  /** The character class `[a-zA-Z0-9_\-=]` of `sanitize_key`. */
  predicate IsKeyChar(c: char) {
    ('a' <= c <= 'z') || ('A' <= c <= 'Z') || ('0' <= c <= '9') || c == '_' || c == '-' || c == '='
  }

  /** `re.sub(r'[^a-zA-Z0-9_\-=]', '_', key)`: same length, every character allowed in a
      search key, allowed characters kept in place and every other one replaced by `_`. */
  function SanitizeKey(key: String): (r: String)
    ensures |r| == |key|
    ensures forall i :: 0 <= i < |r| ==> IsKeyChar(r[i])
    ensures forall i :: 0 <= i < |r| ==> r[i] == (if IsKeyChar(key[i]) then key[i] else '_')
  {
    if key == [] then []
    else [if IsKeyChar(key[0]) then key[0] else '_'] + SanitizeKey(key[1..])
  }

  /** Sanitising twice is sanitising once. */
  lemma SanitizeKeyIdempotent(key: String)
    ensures SanitizeKey(SanitizeKey(key)) == SanitizeKey(key)
  {
  }

  /** Sanitising works character by character, so it distributes over concatenation. */
  lemma {:induction false} SanitizeKeyAppend(a: String, b: String)
    ensures SanitizeKey(a + b) == SanitizeKey(a) + SanitizeKey(b)
  {
    if a == [] {
      assert a + b == b;
    } else {
      assert (a + b)[0] == a[0];
      assert (a + b)[1..] == a[1..] + b;
      SanitizeKeyAppend(a[1..], b);
    }
  }

  /** Two distinct names can share a key: `sanitize_key` is not injective. */
  lemma SanitizeKeyCollides()
    ensures SanitizeKey("a b") == SanitizeKey("a_b") && "a b" != "a_b"
  {
  }

  // ---------------------------------------------------------------------------
  // Decimal rendering (`f"{n}"` for a non-negative int) and `sep.join(parts)`
  // ---------------------------------------------------------------------------

  predicate IsDigit(c: char) { '0' as int <= c as int <= '9' as int }

  function DigitChar(d: nat): (c: char)
    requires d < 10
    ensures IsDigit(c) && (c as int) - ('0' as int) == d
  {
    ['0', '1', '2', '3', '4', '5', '6', '7', '8', '9'][d]
  }

  /** `str(n)` for `n >= 0`: digits only, no leading zero. */
  function Dec(n: nat): (r: String)
    ensures r != [] && forall i :: 0 <= i < |r| ==> IsDigit(r[i])
    ensures r[0] == '0' ==> n == 0
  {
    if n < 10 then [DigitChar(n)] else Dec(n / 10) + [DigitChar(n % 10)]
  }

  /** `int(s)` for a string of decimal digits: the inverse used to show `Dec` is
      injective. */
  function ParseDec(s: String): nat
    requires forall i :: 0 <= i < |s| ==> IsDigit(s[i])
  {
    if s == [] then 0
    else
      var d := s[|s| - 1];
      assert IsDigit(d);
      ParseDec(s[..|s| - 1]) * 10 + ((d as int) - ('0' as int))
  }

  lemma {:induction false} ParseDecOfDec(n: nat)
    ensures ParseDec(Dec(n)) == n
  {
    if n >= 10 {
      var d := Dec(n / 10) + [DigitChar(n % 10)];
      assert d[..|d| - 1] == Dec(n / 10);
      ParseDecOfDec(n / 10);
    }
  }

  /** Different numbers render differently. */
  lemma DecInjective(m: nat, n: nat)
    requires Dec(m) == Dec(n)
    ensures m == n
  {
    ParseDecOfDec(m);
    ParseDecOfDec(n);
  }

  /** `sep.join(parts)`. */
  function Join(parts: seq<String>, sep: String): (r: String)
    ensures parts == [] ==> r == []
    ensures |parts| == 1 ==> r == parts[0]
  {
    if parts == [] then []
    else if |parts| == 1 then parts[0]
    else parts[0] + sep + Join(parts[1..], sep)
  }
}
