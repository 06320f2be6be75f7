/**
 * Text helpers of the Go standard library on ASCII text. Go strings and byte
 * slices are both byte sequences; both are modelled as `string`, one char a byte.
 */
module Text {

  type Bytes = string

  // strings.TrimSpace on ASCII: space, \t, \n, \v, \f, \r
  predicate IsSpace(c: char) {
    c == ' ' || '\t' <= c <= '\r'
  }

  function TrimLeft(s: string): string {
    if s != [] && IsSpace(s[0]) then TrimLeft(s[1..]) else s
  }

  function TrimRight(s: string): string {
    if s != [] && IsSpace(s[|s| - 1]) then TrimRight(s[..|s| - 1]) else s
  }

  function TrimSpace(s: string): string {
    TrimRight(TrimLeft(s))
  }

  function LowerChar(c: char): char {
    if 'A' <= c <= 'Z' then c + 32 as char else c
  }

  function ToLower(s: string): string {
    seq(|s|, i requires 0 <= i < |s| => LowerChar(s[i]))
  }

  /** strings.EqualFold on ASCII. */
  predicate EqualFold(s: string, t: string) {
    ToLower(s) == ToLower(t)
  }

  /** strings.TrimRight(s, c) */
  function DropTrailing(s: string, c: char): string {
    if s != [] && s[|s| - 1] == c then DropTrailing(s[..|s| - 1], c) else s
  }

  /** strings.Split(s, c): never empty, one more piece than there are separators. */
  function Split(s: string, c: char): (parts: seq<string>)
    ensures |parts| >= 1
  {
    if s == [] then [""]
    else if s[0] == c then [""] + Split(s[1..], c)
    else
      var rest := Split(s[1..], c);
      [[s[0]] + rest[0]] + rest[1..]
  }

  function Join(parts: seq<string>, c: char): string {
    if |parts| == 0 then ""
    else if |parts| == 1 then parts[0]
    else parts[0] + [c] + Join(parts[1..], c)
  }

  predicate Contains(s: string, t: string) {
    t <= s || (s != [] && Contains(s[1..], t))
  }

  predicate AllBlank(s: string) {
    forall i :: 0 <= i < |s| ==> IsSpace(s[i])
  }

  /** The text neither begins nor ends with a blank. */
  predicate IsTrimmed(s: string) {
    s != [] ==> !IsSpace(s[0]) && !IsSpace(s[|s| - 1])
  }

  lemma {:induction false} TrimLeftDrops(l: string, s: string)
    requires AllBlank(l)
    ensures TrimLeft(l + s) == TrimLeft(s)
  {
    if l == [] {
      assert l + s == s;
    } else {
      assert (l + s)[1..] == l[1..] + s;
      TrimLeftDrops(l[1..], s);
    }
  }

  lemma {:induction false} TrimRightDrops(s: string, r: string)
    requires AllBlank(r)
    ensures TrimRight(s + r) == TrimRight(s)
    decreases |r|
  {
    if r == [] {
      assert s + r == s;
    } else {
      assert (s + r)[..|s + r| - 1] == s + r[..|r| - 1];
      TrimRightDrops(s, r[..|r| - 1]);
    }
  }

  /** Trimming removes exactly the surrounding blanks. */
  lemma TrimSpaceMeans(l: string, s: string, r: string)
    requires AllBlank(l) && IsTrimmed(s) && AllBlank(r)
    ensures TrimSpace(l + s + r) == s
  {
    assert l + s + r == l + (s + r);
    TrimLeftDrops(l, s + r);
    if s == [] {
      assert s + r == r + [];
      TrimLeftDrops(r, []);
    } else {
      assert (s + r)[0] == s[0];
      TrimRightDrops(s, r);
    }
  }

  lemma {:induction false} TrimSpaceId(s: string)
    requires s != [] ==> !IsSpace(s[0]) && !IsSpace(s[|s| - 1])
    ensures TrimSpace(s) == s
  {
  }

  /** Dropping trailing characters drops exactly those. */
  lemma {:induction false} DropTrailingMeans(s: string, c: char, tail: string)
    requires (s != [] ==> s[|s| - 1] != c) && forall i :: 0 <= i < |tail| ==> tail[i] == c
    ensures DropTrailing(s + tail, c) == s
    decreases |tail|
  {
    if tail == [] {
      assert s + tail == s;
    } else {
      assert (s + tail)[..|s + tail| - 1] == s + tail[..|tail| - 1];
      DropTrailingMeans(s, c, tail[..|tail| - 1]);
    }
  }

  ghost predicate OccursAt(s: string, t: string, i: nat) {
    i + |t| <= |s| && s[i..i + |t|] == t
  }

  lemma SliceOfRest(s: string, i: nat, n: nat)
    requires i + 1 + n <= |s|
    ensures s[1..][i..i + n] == s[i + 1..i + 1 + n]
  {
    var a, b := s[1..][i..i + n], s[i + 1..i + 1 + n];
    assert |a| == |b| && forall k :: 0 <= k < n ==> a[k] == b[k];
  }

  lemma {:induction false} ContainsIff(s: string, t: string)
    ensures Contains(s, t) <==> exists i: nat :: OccursAt(s, t, i)
  {
    assert t <= s <==> OccursAt(s, t, 0);
    if s != [] {
      ContainsIff(s[1..], t);
      forall i: nat ensures OccursAt(s[1..], t, i) <==> OccursAt(s, t, i + 1) {
        if i + 1 + |t| <= |s| {
          SliceOfRest(s, i, |t|);
        }
      }
      forall i: nat | OccursAt(s, t, i) && i > 0 ensures OccursAt(s[1..], t, i - 1) {
        assert OccursAt(s[1..], t, i - 1) <==> OccursAt(s, t, i - 1 + 1);
      }
    }
  }

  /** Splitting undoes joining, for pieces free of the separator. */
  lemma {:induction false} SplitOfJoin(parts: seq<string>, c: char)
    requires |parts| >= 1
    requires forall i :: 0 <= i < |parts| ==> c !in parts[i]
    ensures Split(Join(parts, c), c) == parts
  {
    var p, rest := parts[0], parts[1..];
    if rest == [] {
      SplitOfPiece(p, c);
      assert parts == [p];
    } else {
      SplitOfJoin(rest, c);
      SplitAtFirst(p, Join(rest, c), c);
      assert Join(parts, c) == p + [c] + Join(rest, c);
      assert parts == [p] + rest;
    }
  }

  lemma {:induction false} SplitOfPiece(p: string, c: char)
    requires c !in p
    ensures Split(p, c) == [p]
  {
    if p != [] {
      SplitOfPiece(p[1..], c);
      assert [p[0]] + p[1..] == p;
    }
  }

  lemma {:induction false} SplitAtFirst(p: string, t: string, c: char)
    requires c !in p
    ensures Split(p + [c] + t, c) == [p] + Split(t, c)
  {
    var s := p + [c] + t;
    if p == [] {
      assert s[1..] == t;
    } else {
      assert s[1..] == p[1..] + [c] + t && s[0] == p[0];
      SplitAtFirst(p[1..], t, c);
      assert [p[0]] + p[1..] == p;
    }
  }

  /** Joining undoes splitting, and no piece holds the separator. */
  lemma {:induction false} JoinOfSplit(s: string, c: char)
    ensures Join(Split(s, c), c) == s
    ensures forall i :: 0 <= i < |Split(s, c)| ==> c !in Split(s, c)[i]
  {
    if s == [] {
    } else {
      JoinOfSplit(s[1..], c);
      var rest := Split(s[1..], c);
      if s[0] == c {
        assert Split(s, c)[1..] == rest;
      } else {
        assert Split(s, c)[1..] == rest[1..];
      }
    }
  }

  /** Every character is the separator or occurs in some piece. */
  lemma {:induction false} SplitCovers(s: string, c: char, x: char) returns (i: nat)
    requires x in s && x != c
    ensures i < |Split(s, c)| && x in Split(s, c)[i]
  {
    var rest := Split(s[1..], c);
    if s[0] == x {
      i := 0;
    } else {
      i := SplitCovers(s[1..], c, x);
      if s[0] == c {
        i := i + 1;
        assert Split(s, c)[i] == rest[i - 1];
      } else if i > 0 {
        assert Split(s, c)[i] == rest[i];
      }
    }
  }
}
