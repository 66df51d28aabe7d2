/**
 * The tag normalizer shared by both post-creation forms: a comma-separated
 * string is split on ",", every piece is trimmed as JavaScript's
 * String.prototype.trim does, and pieces that are empty after trimming are
 * dropped. Duplicates are kept and the input order is preserved.
 */
module TagNormalizer {

  /** The WhiteSpace code points of ECMA-262 (section 12.2 of the 2023
      edition): TAB, VT, FF, ZWNBSP and the Unicode space separators. */
  const WhiteSpaceCodePoints: set<int> :=
    {0x09, 0x0B, 0x0C, 0xFEFF, 0x20, 0xA0, 0x1680,
     0x2000, 0x2001, 0x2002, 0x2003, 0x2004, 0x2005, 0x2006, 0x2007, 0x2008, 0x2009, 0x200A,
     0x202F, 0x205F, 0x3000}

  /** The LineTerminator code points of ECMA-262 (section 12.3): LF, CR, LS, PS. */
  const LineTerminatorCodePoints: set<int> := {0x0A, 0x0D, 0x2028, 0x2029}

  /** A code point that String.prototype.trim strips; IsSpaceCodePoints
      shows these are exactly the WhiteSpace and LineTerminator code points.
      A comma is not one. */
  predicate IsSpace(c: char) {
    var n := c as int;
    n == 0x09 || n == 0x0A || n == 0x0B || n == 0x0C || n == 0x0D ||
    n == 0x20 || n == 0xA0 || n == 0x1680 || (0x2000 <= n <= 0x200A) ||
    n == 0x2028 || n == 0x2029 || n == 0x202F || n == 0x205F ||
    n == 0x3000 || n == 0xFEFF
  }

  lemma IsSpaceCodePoints(c: char)
    ensures IsSpace(c) <==> c as int in WhiteSpaceCodePoints + LineTerminatorCodePoints
  {
  }

  predicate AllSpace(s: string) {
    forall k :: 0 <= k < |s| ==> IsSpace(s[k])
  }

  /** Neither end of the string is a space character. */
  predicate IsTrimmed(s: string) {
    s == [] || (!IsSpace(s[0]) && !IsSpace(s[|s| - 1]))
  }

  /** What every produced tag looks like. */
  predicate IsTag(t: string) {
    t != [] && IsTrimmed(t) && ',' !in t
  }

  predicate AllTags(ts: seq<string>) {
    forall k :: 0 <= k < |ts| ==> IsTag(ts[k])
  }

  // ---------------------------------------------------------------------
  // trim

  /** Every character from position `lo` up to `hi` is a space. */
  predicate SpaceBetween(s: string, lo: nat, hi: nat)
    requires lo <= hi <= |s|
  {
    forall k :: lo <= k < hi ==> IsSpace(s[k])
  }

  /** The number of space characters at the start of `s`. */
  function LeadingSpace(s: string): (n: nat)
    ensures n <= |s|
    ensures n < |s| ==> !IsSpace(s[n])
  {
    if s == [] || !IsSpace(s[0]) then 0 else 1 + LeadingSpace(s[1..])
  }

  /** The number of space characters at the end of `s`. */
  function TrailingSpace(s: string): (n: nat)
    ensures n <= |s|
    ensures n < |s| ==> !IsSpace(s[|s| - 1 - n])
  {
    if s == [] || !IsSpace(s[|s| - 1]) then 0 else 1 + TrailingSpace(s[..|s| - 1])
  }

  lemma {:induction false} LeadingSpaceIsSpace(s: string)
    ensures SpaceBetween(s, 0, LeadingSpace(s))
  {
    if s != [] && IsSpace(s[0]) {
      LeadingSpaceIsSpace(s[1..]);
      forall k | 0 < k < LeadingSpace(s) ensures IsSpace(s[k]) {
        assert s[k] == s[1..][k - 1];
      }
    }
  }

  lemma {:induction false} TrailingSpaceIsSpace(s: string)
    ensures SpaceBetween(s, |s| - TrailingSpace(s), |s|)
  {
    if s != [] && IsSpace(s[|s| - 1]) {
      var init := s[..|s| - 1];
      TrailingSpaceIsSpace(init);
      forall k | |s| - TrailingSpace(s) <= k < |s| - 1 ensures IsSpace(s[k]) {
        assert s[k] == init[k];
      }
    }
  }

  /** String.prototype.trim: `s` with its leading and trailing space
      characters removed. Neither end of the result is a space; TrimSlice
      states where in `s` the result comes from. */
  function Trim(s: string): (r: string)
    ensures IsTrimmed(r)
    ensures |r| <= |s|
  {
    var i := LeadingSpace(s);
    var rest := s[i..];
    var j := |s| - TrailingSpace(rest);
    assert j > i ==> s[i..j][0] == s[i];
    assert j > i ==> s[i..j][j - i - 1] == rest[|rest| - 1 - TrailingSpace(rest)];
    s[i..j]
  }

  /** The trim of `s` is a slice of `s`, and everything cut off on either
      side of it is space. */
  lemma TrimSlice(s: string) returns (i: nat)
    ensures i + |Trim(s)| <= |s|
    ensures Trim(s) == s[i..i + |Trim(s)|]
    ensures SpaceBetween(s, 0, i) && SpaceBetween(s, i + |Trim(s)|, |s|)
  {
    i := LeadingSpace(s);
    LeadingSpaceIsSpace(s);
    var rest := s[i..];
    var n := TrailingSpace(rest);
    TrailingSpaceIsSpace(rest);
    assert Trim(s) == s[i..|s| - n];
    forall k | |s| - n <= k < |s| ensures IsSpace(s[k]) {
      assert s[k] == rest[k - i];
    }
  }

  lemma {:induction false} LeadingSpaceOfPadded(p: string, t: string)
    requires AllSpace(p)
    requires t != [] && !IsSpace(t[0])
    ensures LeadingSpace(p + t) == |p|
  {
    if p != [] {
      assert (p + t)[1..] == p[1..] + t;
      LeadingSpaceOfPadded(p[1..], t);
    } else {
      assert p + t == t;
    }
  }

  lemma {:induction false} TrailingSpaceOfPadded(t: string, q: string)
    requires AllSpace(q)
    requires t != [] && !IsSpace(t[|t| - 1])
    ensures TrailingSpace(t + q) == |q|
  {
    if q != [] {
      var q' := q[..|q| - 1];
      assert (t + q)[..|t + q| - 1] == t + q';
      TrailingSpaceOfPadded(t, q');
    } else {
      assert t + q == t;
    }
  }

  lemma {:induction false} LeadingSpaceOfBlank(s: string)
    requires AllSpace(s)
    ensures LeadingSpace(s) == |s|
  {
    if s != [] {
      LeadingSpaceOfBlank(s[1..]);
    }
  }

  lemma BlankAppend(a: string, b: string)
    requires AllSpace(a) && AllSpace(b)
    ensures AllSpace(a + b)
  {
    forall k | 0 <= k < |a + b| ensures IsSpace((a + b)[k]) {
      if k < |a| { assert (a + b)[k] == a[k]; } else { assert (a + b)[k] == b[k - |a|]; }
    }
  }

  /** Trim is determined by its contract: padding a trimmed string with
      spaces on both sides and trimming gives that string back. */
  lemma TrimOfPadded(p: string, r: string, q: string)
    requires AllSpace(p) && AllSpace(q) && IsTrimmed(r)
    ensures Trim(p + r + q) == r
  {
    var s := p + r + q;
    if r == [] {
      assert s == p + q;
      BlankAppend(p, q);
      BlankTrimsEmpty(s);
    } else {
      assert s == p + (r + q);
      LeadingSpaceOfPadded(p, r + q);
      assert s[|p|..] == r + q;
      TrailingSpaceOfPadded(r, q);
      assert s[|p|..|s| - |q|] == r;
    }
  }

  /** Trim leaves a trimmed string alone; in particular it is idempotent. */
  lemma TrimTrimmed(t: string)
    requires IsTrimmed(t)
    ensures Trim(t) == t
  {
    TrimOfPadded([], t, []);
    assert [] + t + [] == t;
  }

  lemma TrimIdempotent(s: string)
    ensures Trim(Trim(s)) == Trim(s)
  {
    TrimTrimmed(Trim(s));
  }

  /** A string trims to nothing exactly when it consists of spaces. */
  lemma TrimEmptyIff(s: string)
    ensures Trim(s) == [] <==> AllSpace(s)
  {
    if AllSpace(s) {
      BlankTrimsEmpty(s);
    }
    if Trim(s) == [] {
      EmptyTrimIsBlank(s);
    }
  }

  lemma BlankTrimsEmpty(s: string)
    requires AllSpace(s)
    ensures Trim(s) == []
  {
    LeadingSpaceOfBlank(s);
    assert s[|s|..] == [];
  }

  lemma EmptyTrimIsBlank(s: string)
    requires Trim(s) == []
    ensures AllSpace(s)
  {
    var i := TrimSlice(s);
    assert |Trim(s)| == 0;
    assert SpaceBetween(s, 0, i) && SpaceBetween(s, i, |s|);
    forall k | 0 <= k < |s| ensures IsSpace(s[k]) {
      if k < i {
        assert SpaceBetween(s, 0, i);
      } else {
        assert SpaceBetween(s, i, |s|);
      }
    }
  }

  /** Trim removes characters; it adds none. */
  lemma TrimSubset(s: string, c: char)
    ensures c in Trim(s) ==> c in s
  {
    var r := Trim(s);
    if c in r {
      var i := TrimSlice(s);
      var k :| 0 <= k < |r| && r[k] == c;
      assert s[i + k] == c;
    }
  }

  // ---------------------------------------------------------------------
  // split(",") and join(",")

  /** String.prototype.split(","): the pieces between commas. There is
      always at least one piece ("".split(",") is [""]), and no piece
      holds a comma. */
  function Split(s: string): (r: seq<string>)
    ensures |r| > 0
    ensures forall k :: 0 <= k < |r| ==> ',' !in r[k]
  {
    if s == [] then [[]]
    else
      var rest := Split(s[1..]);
      if s[0] == ',' then [[]] + rest
      else [[s[0]] + rest[0]] + rest[1..]
  }

  /** Array.prototype.join(","), the inverse of Split. */
  function Join(ps: seq<string>): string {
    if |ps| == 0 then []
    else if |ps| == 1 then ps[0]
    else ps[0] + [','] + Join(ps[1..])
  }

  lemma {:induction false} JoinSplit(s: string)
    ensures Join(Split(s)) == s
  {
    if s != [] {
      JoinSplit(s[1..]);
      var rest := Split(s[1..]);
      if s[0] == ',' {
        assert ([[]] + rest)[1..] == rest;
      } else {
        var r := [[s[0]] + rest[0]] + rest[1..];
        assert r[1..] == rest[1..];
        if |rest| > 1 {
          assert Join(rest) == rest[0] + [','] + Join(rest[1..]);
        }
      }
    }
  }

  /** A comma splits the input exactly where it stands. */
  lemma {:induction false} SplitAppend(a: string, b: string)
    ensures Split(a + [','] + b) == Split(a) + Split(b)
  {
    var s := a + [','] + b;
    if a == [] {
      assert s == [','] + b;
      assert s[1..] == b;
    } else {
      assert s[1..] == a[1..] + [','] + b;
      SplitAppend(a[1..], b);
    }
  }

  lemma {:induction false} SplitPiece(p: string)
    requires ',' !in p
    ensures Split(p) == [p]
  {
    if p != [] {
      SplitPiece(p[1..]);
      assert [p[0]] + p[1..] == p;
    }
  }

  /** Splitting a join of comma-free pieces gives the pieces back. */
  lemma {:induction false} SplitJoin(ps: seq<string>)
    requires |ps| > 0
    requires forall k :: 0 <= k < |ps| ==> ',' !in ps[k]
    ensures Split(Join(ps)) == ps
  {
    if |ps| == 1 {
      SplitPiece(ps[0]);
    } else {
      SplitJoin(ps[1..]);
      SplitAppend(ps[0], Join(ps[1..]));
      SplitPiece(ps[0]);
      assert ps == [ps[0]] + ps[1..];
    }
  }

  // ---------------------------------------------------------------------
  // trimming every piece, and dropping the empty ones

  /** Every piece trimmed, in place: the list keeps its length and order. */
  function TrimAll(ps: seq<string>): (r: seq<string>)
    ensures |r| == |ps|
    ensures forall k :: 0 <= k < |r| ==> r[k] == Trim(ps[k])
  {
    if ps == [] then []
    else
      var rest := TrimAll(ps[1..]);
      assert forall k :: 0 < k <= |rest| ==> ([Trim(ps[0])] + rest)[k] == rest[k - 1];
      [Trim(ps[0])] + rest
  }

  /** The pieces that are not the empty string, in their original order. */
  function DropEmpty(ps: seq<string>): (r: seq<string>)
    ensures |r| <= |ps|
    ensures forall k :: 0 <= k < |r| ==> r[k] != []
  {
    if ps == [] then []
    else if ps[0] == [] then DropEmpty(ps[1..])
    else [ps[0]] + DropEmpty(ps[1..])
  }

  lemma {:induction false} DropEmptyMembers(ps: seq<string>, t: string)
    ensures t in DropEmpty(ps) <==> t in ps && t != []
  {
    if ps != [] {
      DropEmptyMembers(ps[1..], t);
      assert ps == [ps[0]] + ps[1..];
    }
  }

  lemma {:induction false} TrimAllAppend(a: seq<string>, b: seq<string>)
    ensures TrimAll(a + b) == TrimAll(a) + TrimAll(b)
  {
  }

  lemma {:induction false} DropEmptyAppend(a: seq<string>, b: seq<string>)
    ensures DropEmpty(a + b) == DropEmpty(a) + DropEmpty(b)
  {
    if a != [] {
      assert (a + b)[1..] == a[1..] + b;
      DropEmptyAppend(a[1..], b);
    } else {
      assert a + b == b;
    }
  }

  lemma {:induction false} TrimAllTrimmed(ps: seq<string>)
    requires forall k :: 0 <= k < |ps| ==> IsTrimmed(ps[k])
    ensures TrimAll(ps) == ps
  {
    forall k | 0 <= k < |ps| ensures TrimAll(ps)[k] == ps[k] {
      TrimTrimmed(ps[k]);
    }
  }

  lemma {:induction false} DropEmptyNonEmpty(ps: seq<string>)
    requires forall k :: 0 <= k < |ps| ==> ps[k] != []
    ensures DropEmpty(ps) == ps
  {
    if ps != [] {
      DropEmptyNonEmpty(ps[1..]);
    }
  }

  // ---------------------------------------------------------------------
  // the normalizer

  /** The tags of a tags field: split it at every comma, trim each piece and
      drop the pieces left empty. Every tag it produces is non-empty, its own
      trim, and comma-free. */
  function Normalize(s: string): (r: seq<string>)
    ensures AllTags(r)
  {
    var pieces := Split(s);
    var trimmed := TrimAll(pieces);
    var r := DropEmpty(trimmed);
    assert forall k :: 0 <= k < |r| ==> IsTag(r[k]) by {
      forall k | 0 <= k < |r| ensures IsTag(r[k]) {
        DropEmptyMembers(trimmed, r[k]);
        var j :| 0 <= j < |trimmed| && trimmed[j] == r[k];
        TrimSubset(pieces[j], ',');
      }
    }
    r
  }

  /** Each produced tag equals its own trim. */
  lemma NormalizeTagsTrimmed(s: string)
    ensures forall k :: 0 <= k < |Normalize(s)| ==> Trim(Normalize(s)[k]) == Normalize(s)[k]
  {
    var r := Normalize(s);
    forall k | 0 <= k < |r| ensures Trim(r[k]) == r[k] {
      TrimTrimmed(r[k]);
    }
  }

  lemma TrimAllMembers(ps: seq<string>, t: string)
    ensures t in TrimAll(ps) <==> exists p :: p in ps && Trim(p) == t
  {
    var r := TrimAll(ps);
    if t in r {
      var k :| 0 <= k < |r| && r[k] == t;
      assert ps[k] in ps && Trim(ps[k]) == t;
    }
    if exists p :: p in ps && Trim(p) == t {
      var p :| p in ps && Trim(p) == t;
      var k :| 0 <= k < |ps| && ps[k] == p;
      assert r[k] == t;
    }
  }

  /** A tag is produced exactly when some comma-piece of the input trims to it. */
  lemma NormalizeMembers(s: string, t: string)
    ensures t in Normalize(s) <==> t != [] && exists p :: p in Split(s) && Trim(p) == t
  {
    DropEmptyMembers(TrimAll(Split(s)), t);
    TrimAllMembers(Split(s), t);
  }

  /** A comma-free input gives its trim as the one tag, or nothing when it is blank. */
  lemma SinglePiece(p: string)
    requires ',' !in p
    ensures Normalize(p) == if Trim(p) == [] then [] else [Trim(p)]
  {
    SplitPiece(p);
    assert TrimAll([p]) == [Trim(p)];
    assert [Trim(p)][1..] == [];
  }

  /** Normalizing across a comma concatenates: the tags of the part before a
      comma come first, in order, then those of the part after it. */
  lemma NormalizeAppend(a: string, b: string)
    ensures Normalize(a + [','] + b) == Normalize(a) + Normalize(b)
  {
    SplitAppend(a, b);
    TrimAllAppend(Split(a), Split(b));
    DropEmptyAppend(TrimAll(Split(a)), TrimAll(Split(b)));
  }

  /** Join is the inverse of Normalize on lists of well-formed tags. */
  lemma NormalizeJoin(ts: seq<string>)
    requires AllTags(ts)
    ensures Normalize(Join(ts)) == ts
  {
    if ts == [] {
      assert Split([]) == [[]];
      assert Trim([]) == [];
    } else {
      SplitJoin(ts);
      TrimAllTrimmed(ts);
      DropEmptyNonEmpty(ts);
    }
  }

  /** Re-normalizing the comma-join of a normalized result returns that result. */
  lemma NormalizeIdempotent(s: string)
    ensures Normalize(Join(Normalize(s))) == Normalize(s)
  {
    NormalizeJoin(Normalize(s));
  }

  /** Every character is a comma or a space. */
  predicate OnlySeparators(s: string) {
    forall k :: 0 <= k < |s| ==> s[k] == ',' || IsSpace(s[k])
  }

  lemma SeparatorsAppend(a: string, b: string)
    ensures OnlySeparators(a + [','] + b) <==> OnlySeparators(a) && OnlySeparators(b)
  {
    var s := a + [','] + b;
    if OnlySeparators(s) {
      assert forall k :: 0 <= k < |a| ==> a[k] == s[k];
      assert forall k :: 0 <= k < |b| ==> b[k] == s[|a| + 1 + k];
    }
    if OnlySeparators(a) && OnlySeparators(b) {
      forall k | 0 <= k < |s| ensures s[k] == ',' || IsSpace(s[k]) {
        if k < |a| { assert s[k] == a[k]; }
        else if k > |a| { assert s[k] == b[k - |a| - 1]; }
      }
    }
  }

  /** No tags come out exactly when the input holds nothing but commas and
      spaces; the empty string is one such input. */
  lemma {:induction false} NormalizeEmptyIff(s: string)
    ensures Normalize(s) == [] <==> OnlySeparators(s)
    decreases |s|
  {
    if ',' in s {
      var i :| 0 <= i < |s| && s[i] == ',';
      var a, b := s[..i], s[i + 1..];
      assert s == a + [','] + b;
      NormalizeAppend(a, b);
      NormalizeEmptyIff(a);
      NormalizeEmptyIff(b);
      SeparatorsAppend(a, b);
    } else {
      SinglePiece(s);
      TrimEmptyIff(s);
      assert OnlySeparators(s) <==> AllSpace(s);
    }
  }
}
