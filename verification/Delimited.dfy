/** The pipe-delimited encoding of a set for SQL membership probes. */
module Delimited {
  import opened Substrings

  /** The items, each closed by a pipe. */
  function Closed(items: seq<string>): string {
    if items == [] then "" else items[0] + "|" + Closed(items[1..])
  }

  /** `"|" + "|".join(items) + "|"`, or a lone pipe for the empty list. */
  function Encoded(items: seq<string>): string {
    "|" + Closed(items)
  }

  function Join(items: seq<string>): string
    requires items != []
  {
    if |items| == 1 then items[0] else items[0] + "|" + Join(items[1..])
  }

  /** The encoding as the source writes it. */
  function Delimit(items: seq<string>): string {
    if items == [] then "|" else "|" + Join(items) + "|"
  }

  lemma {:induction false} DelimitIsEncoded(items: seq<string>)
    ensures Delimit(items) == Encoded(items)
  {
    if |items| > 0 {
      JoinIsClosed(items);
    }
  }

  lemma {:induction false} JoinIsClosed(items: seq<string>)
    requires items != []
    ensures Join(items) + "|" == Closed(items)
  {
    if |items| > 1 {
      JoinIsClosed(items[1..]);
    } else {
      assert items[1..] == [];
    }
  }

  /** The probe: `"|" + x + "|"` occurs in the encoding. */
  ghost predicate Probed(x: string, items: seq<string>) {
    exists i: nat :: At("|" + x + "|", Delimit(items), i)
  }

  /** The pieces of a string between its pipes. */
  function Pieces(s: string): seq<string> {
    if s == "" then [""]
    else
      var rest := Pieces(s[1..]);
      if s[0] == '|' then [""] + rest else if rest == [] then [s] else [[s[0]] + rest[0]] + rest[1..]
  }

  // ---------------------------------------------------------------- one closed text

  /** `x` closed by a pipe stands at a place where a piece begins. */
  predicate BeginsAt(x: string, s: string, i: nat) {
    At(x + "|", s, i) && (i == 0 || s[i - 1] == '|')
  }

  ghost predicate Begins(x: string, s: string) {
    exists i: nat :: BeginsAt(x, s, i)
  }

  /** Behind a pipe, a piece begins in a string where it begins in its tail. */
  lemma BeginsInTail(x: string, s: string, cut: nat, i: nat)
    requires 1 <= cut <= |s| && s[cut - 1] == '|'
    ensures BeginsAt(x, s, cut + i) <==> BeginsAt(x, s[cut..], i)
  {
    if cut + i + |x| + 1 <= |s| {
      assert s[cut..][i..i + |x| + 1] == s[cut + i..cut + i + |x| + 1];
    }
    if 0 < i <= |s| - cut {
      assert s[cut..][i - 1] == s[cut + i - 1];
    }
  }

  lemma PipesAround(x: string, s: string, i: nat)
    requires i < |s|
    ensures At("|" + x + "|", s, i) <==> s[i] == '|' && At(x + "|", s, i + 1)
  {
    var n := |x| + 2;
    if i + n <= |s| {
      var part := s[i..i + n];
      assert part[0] == s[i] && part[1..] == s[i + 1..i + n];
      assert "|" + x + "|" == ['|'] + (x + "|");
      assert part == [part[0]] + part[1..];
    }
  }

  lemma ProbedIsBegins(x: string, items: seq<string>)
    ensures Probed(x, items) <==> Begins(x, Closed(items))
  {
    DelimitIsEncoded(items);
    var s := Encoded(items);
    assert s[1..] == Closed(items);
    if i: nat :| At("|" + x + "|", s, i) {
      PipesAround(x, s, i);
      BeginsInTail(x, s, 1, i);
    }
    if i: nat :| BeginsAt(x, Closed(items), i) {
      BeginsInTail(x, s, 1, i);
      PipesAround(x, s, i);
    }
  }

  lemma {:induction false} PiecesNonempty(s: string)
    ensures Pieces(s) != []
  {
    if s != "" {
      PiecesNonempty(s[1..]);
    }
  }

  lemma {:induction false} PipeFreePieces(s: string)
    requires PipeFree(s)
    ensures Pieces(s) == [s]
  {
    if s != "" {
      PipeFreePieces(s[1..]);
      assert [s[0]] + s[1..] == s;
    }
  }

  /** The pieces of all items, in order. */
  function AllPieces(items: seq<string>): seq<string> {
    if items == [] then [] else Pieces(items[0]) + AllPieces(items[1..])
  }

  predicate AllPipeFree(pieces: seq<string>) {
    forall i :: 0 <= i < |pieces| ==> PipeFree(pieces[i])
  }

  lemma Regroup(c: char, first: string, rest: string)
    ensures ([c] + first) + "|" + rest == [c] + (first + "|" + rest)
  {}

  /** A character put before the first piece. */
  lemma LongerFirstPiece(c: char, pieces: seq<string>)
    requires c != '|' && pieces != [] && AllPipeFree(pieces)
    ensures AllPipeFree([[c] + pieces[0]] + pieces[1..])
    ensures Closed([[c] + pieces[0]] + pieces[1..]) == [c] + Closed(pieces)
  {
    var longer := [[c] + pieces[0]] + pieces[1..];
    assert forall i :: 1 <= i < |longer| ==> longer[i] == pieces[i];
    assert longer[1..] == pieces[1..];
    Regroup(c, pieces[0], Closed(pieces[1..]));
  }

  /** Pieces hold no pipe, and closing them gives the string back, closed. */
  lemma {:induction false} PiecesClose(s: string)
    ensures AllPipeFree(Pieces(s)) && Closed(Pieces(s)) == s + "|"
  {
    if s != "" {
      PiecesClose(s[1..]);
      PiecesNonempty(s[1..]);
      var rest := Pieces(s[1..]);
      assert s == [s[0]] + s[1..];
      if s[0] == '|' {
        assert ([""] + rest)[1..] == rest;
      } else {
        LongerFirstPiece(s[0], rest);
        assert [s[0]] + (s[1..] + "|") == s + "|";
      }
    }
  }

  lemma {:induction false} ClosedConcat(a: seq<string>, b: seq<string>)
    ensures Closed(a + b) == Closed(a) + Closed(b)
  {
    if a == [] {
      assert a + b == b;
    } else {
      assert (a + b)[1..] == a[1..] + b;
      ClosedConcat(a[1..], b);
    }
  }

  /** A list of items and the list of their pieces close to the same text. */
  lemma {:induction false} AllPiecesClose(items: seq<string>)
    ensures AllPipeFree(AllPieces(items)) && Closed(AllPieces(items)) == Closed(items)
  {
    if items != [] {
      PiecesClose(items[0]);
      AllPiecesClose(items[1..]);
      ClosedConcat(Pieces(items[0]), AllPieces(items[1..]));
    }
  }

  lemma SameUpToPipe(x: string, first: string, s: string)
    requires PipeFree(x) && PipeFree(first) && x + "|" <= s && first + "|" <= s
    ensures x == first
  {
    assert s[|x|] == (x + "|")[|x|] == '|';
    assert s[|first|] == (first + "|")[|first|] == '|';
    assert forall k :: 0 <= k < |x| ==> s[k] == (x + "|")[k] == x[k];
    assert forall k :: 0 <= k < |first| ==> s[k] == (first + "|")[k] == first[k];
    assert |x| == |first|;
  }

  /** One closed list is a prefix of another exactly when the pieces are. */
  lemma {:induction false} ClosedPrefixExactly(q: seq<string>, p: seq<string>)
    requires AllPipeFree(q) && AllPipeFree(p)
    ensures Closed(q) <= Closed(p) <==> q <= p
  {
    if q != [] && p != [] {
      var s, t := Closed(q), Closed(p);
      ClosedPrefixExactly(q[1..], p[1..]);
      assert s == (q[0] + "|") + Closed(q[1..]) && t == (p[0] + "|") + Closed(p[1..]);
      if s <= t {
        assert q[0] + "|" <= s && q[0] + "|" <= t;
        SameUpToPipe(q[0], p[0], t);
        assert t[|q[0]| + 1..] == Closed(p[1..]) && s[|q[0]| + 1..] == Closed(q[1..]);
      }
      if q <= p {
        assert q[0] == p[0] && q[1..] <= p[1..];
      }
      if q[0] == p[0] && q[1..] <= p[1..] {
        assert q == [q[0]] + q[1..] && p == [p[0]] + p[1..];
      }
    }
  }

  /** The list q is the stretch of p from k on. */
  predicate RunAt(q: seq<string>, p: seq<string>, k: nat) {
    k + |q| <= |p| && p[k..k + |q|] == q
  }

  ghost predicate IsRun(q: seq<string>, p: seq<string>) {
    exists k: nat :: RunAt(q, p, k)
  }

  lemma RunInTail(q: seq<string>, p: seq<string>)
    requires q != [] && p != []
    ensures IsRun(q, p) <==> q <= p || IsRun(q, p[1..])
  {
    if k: nat :| RunAt(q, p, k) {
      if k > 0 {
        assert p[1..][k - 1..k - 1 + |q|] == p[k..k + |q|];
        assert RunAt(q, p[1..], k - 1);
      }
    }
    if k: nat :| RunAt(q, p[1..], k) {
      assert p[1..][k..k + |q|] == p[k + 1..k + 1 + |q|];
      assert RunAt(q, p, k + 1);
    }
    if q <= p {
      assert RunAt(q, p, 0);
    }
  }

  /** Behind a pipe-free first piece, a string begins at once or in the rest. */
  lemma BeginsAfterPiece(x: string, first: string, rest: string)
    requires PipeFree(first)
    ensures Begins(x, first + "|" + rest) <==> x + "|" <= first + "|" + rest || Begins(x, rest)
  {
    var s, cut := first + "|" + rest, |first| + 1;
    assert s[cut..] == rest;
    if x + "|" <= s {
      assert BeginsAt(x, s, 0);
    }
    if i: nat :| BeginsAt(x, rest, i) {
      BeginsInTail(x, s, cut, i);
    }
    if i: nat :| BeginsAt(x, s, i) {
      if i >= cut {
        BeginsInTail(x, s, cut, i - cut);
      } else {
        assert forall k :: 0 <= k < |first| ==> s[k] == first[k];
        assert i == 0;
      }
    }
  }

  /** A string begins in a closed list of pieces exactly when its own pieces are a run of it. */
  lemma {:induction false} BeginsExactly(x: string, p: seq<string>)
    requires AllPipeFree(p)
    ensures Begins(x, Closed(p)) <==> IsRun(Pieces(x), p)
  {
    var q := Pieces(x);
    PiecesNonempty(x);
    PiecesClose(x);
    if p != [] {
      BeginsAfterPiece(x, p[0], Closed(p[1..]));
      ClosedPrefixExactly(q, p);
      BeginsExactly(x, p[1..]);
      RunInTail(q, p);
    }
  }

  /** The probe, exactly, for any string and any items: it succeeds iff the pieces of the string are a run of the items' pieces. */
  lemma ProbeExactly(x: string, items: seq<string>)
    ensures Probed(x, items) <==> IsRun(Pieces(x), AllPieces(items))
  {
    ProbedIsBegins(x, items);
    AllPiecesClose(items);
    BeginsExactly(x, AllPieces(items));
  }

  lemma {:induction false} InAllPieces(x: string, items: seq<string>)
    ensures x in AllPieces(items) <==> exists v :: v in items && x in Pieces(v)
  {
    if items != [] {
      InAllPieces(x, items[1..]);
      assert items == [items[0]] + items[1..];
      assert x in AllPieces(items) <==> x in Pieces(items[0]) || x in AllPieces(items[1..]);
      if v :| v in items[1..] && x in Pieces(v) {
        assert v in items;
      }
      if v :| v in items && x in Pieces(v) {
        assert v == items[0] || v in items[1..];
      }
      assert items[0] in items;
    }
  }

  /** A pipe-free string is found exactly when it is a piece of some item. */
  lemma PipeFreeProbeExactly(x: string, items: seq<string>)
    requires PipeFree(x)
    ensures Probed(x, items) <==> exists v :: v in items && x in Pieces(v)
  {
    ProbeExactly(x, items);
    PipeFreePieces(x);
    InAllPieces(x, items);
    var p := AllPieces(items);
    if x in p {
      var k :| 0 <= k < |p| && p[k] == x;
      assert RunAt([x], p, k);
    }
    if k: nat :| RunAt([x], p, k) {
      assert p[k] == p[k..k + 1][0];
    }
  }

  /** On pipe-free items the encoding is exact, empty strings and the empty list included. */
  lemma EncodingIsExact(x: string, items: seq<string>)
    requires PipeFree(x) && forall v :: v in items ==> PipeFree(v)
    ensures Probed(x, items) <==> x in items
  {
    PipeFreeProbeExactly(x, items);
    forall v | v in items
      ensures x in Pieces(v) <==> x == v
    {
      PipeFreePieces(v);
    }
  }

  /** An item with a pipe admits strings that are not in the list. */
  lemma PipedItemAdmitsPiece()
    ensures Probed("a", ["a|b"]) && "a" !in ["a|b"]
  {
    PipeFreeProbeExactly("a", ["a|b"]);
    var rest := Pieces("|b");
    assert "a|b"[1..] == "|b";
    assert rest == [""] + Pieces("b");
    assert Pieces("a|b") == [['a'] + rest[0]] + rest[1..];
    assert Pieces("a|b")[0] == "a";
    assert "a|b" in ["a|b"];
  }

  /** A member is always found, whatever pipes there are. */
  lemma {:induction false} MemberIsProbed(x: string, items: seq<string>)
    requires x in items
    ensures Probed(x, items)
  {
    MemberBegins(x, items);
    ProbedIsBegins(x, items);
  }

  lemma {:induction false} MemberBegins(x: string, items: seq<string>)
    requires x in items
    ensures Begins(x, Closed(items))
  {
    var s := Closed(items);
    if x == items[0] {
      assert BeginsAt(x, s, 0);
    } else {
      MemberBegins(x, items[1..]);
      var rest, cut := Closed(items[1..]), |items[0]| + 1;
      var i: nat :| BeginsAt(x, rest, i);
      assert s[cut..] == rest;
      BeginsInTail(x, s, cut, i);
    }
  }
}
