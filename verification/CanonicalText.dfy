// Canonical text by its whole-file definition: every CR LF pair and every lone CR is a line feed,
// and a line is what stands between line feeds.
module CanonicalText {
  import opened Utf8

  const CR := 0x0D
  const LF := 0x0A

  predicate Scalars(t: seq<int>) {
    forall k :: 0 <= k < |t| ==> IsScalar(t[k])
  }

  // ---- The whole file ----

  function Canonical(t: seq<int>): (c: seq<int>)
    ensures Scalars(t) ==> Scalars(c)
    ensures forall k :: 0 <= k < |c| ==> c[k] != CR
  {
    if t == [] then []
    else if t[0] == CR then [LF] + Canonical(if |t| > 1 && t[1] == LF then t[2..] else t[1..])
    else [t[0]] + Canonical(t[1..])
  }

  function Bytes(c: seq<int>): (b: seq<Byte>)
    requires Scalars(c)
    ensures |b| >= |c|
  {
    if c == [] then [] else Encode(c[0]) + Bytes(c[1..])
  }

  // The lines that a line feed ends, and what stands after the last of them.
  function Ended(c: seq<int>): (lines: seq<seq<int>>)
    ensures |lines| <= |c|
    ensures Scalars(c) ==> forall k :: 0 <= k < |lines| ==> Scalars(lines[k])
  {
    if c == [] then []
    else
      var front := c[..|c| - 1];
      if c[|c| - 1] == LF then Ended(front) + [Open(front)] else Ended(front)
  }

  function Open(c: seq<int>): (line: seq<int>)
    ensures |line| <= |c| && (Scalars(c) ==> Scalars(line))
    ensures c == [] || c[|c| - 1] == LF ==> line == []
    ensures c != [] && c[|c| - 1] != LF ==> line != []
  {
    if c == [] || c[|c| - 1] == LF then [] else Open(c[..|c| - 1]) + [c[|c| - 1]]
  }

  // The lines of a text; text after the last line feed is a line too.
  function Lines(c: seq<int>): (lines: seq<seq<int>>)
    ensures Scalars(c) ==> forall k :: 0 <= k < |lines| ==> Scalars(lines[k])
  {
    if Open(c) == [] then Ended(c) else Ended(c) + [Open(c)]
  }

  // The text up to and with its k-th line feed; zero selects all of it.
  function Through(c: seq<int>, k: nat): (d: seq<int>)
  {
    if k == 0 || c == [] then c
    else if c[0] != LF then [c[0]] + Through(c[1..], k)
    else if k == 1 then [LF]
    else [LF] + Through(c[1..], k - 1)
  }

  // ---- Reading on ----

  // What the rest of a text contributes when the scalar before it was a CR or not.
  function From(t: seq<int>, i: nat, skipLF: bool): (c: seq<int>)
    requires i <= |t|
    decreases |t| - i
  {
    if i == |t| then []
    else if skipLF && t[i] == LF then From(t, i + 1, false)
    else if t[i] == CR then [LF] + From(t, i + 1, true)
    else [t[i]] + From(t, i + 1, false)
  }

  // Reading on scalar by scalar gives the whole-file definition.
  lemma {:induction false} FromIsCanonical(t: seq<int>, i: nat)
    requires i <= |t|
    ensures From(t, i, false) == Canonical(t[i..])
    ensures From(t, i, true) == Canonical(if i < |t| && t[i] == LF then t[i + 1..] else t[i..])
    decreases |t| - i
  {
    if i < |t| {
      FromIsCanonical(t, i + 1);
      assert t[i..][1..] == t[i + 1..];
      if i + 1 < |t| {
        assert t[i..][2..] == t[i + 2..];
      }
    }
  }

  // ---- One scalar more ----

  lemma {:induction false} BytesJoin(a: seq<int>, b: seq<int>)
    requires Scalars(a) && Scalars(b)
    ensures Scalars(a + b) && Bytes(a + b) == Bytes(a) + Bytes(b)
  {
    hide Encode;
    if a == [] {
      assert a + b == b;
    } else {
      assert (a + b)[1..] == a[1..] + b;
      BytesJoin(a[1..], b);
      assert Encode(a[0]) + Bytes(a[1..]) + Bytes(b) == Encode(a[0]) + (Bytes(a[1..]) + Bytes(b));
    }
  }

  lemma BytesOne(r: int)
    requires IsScalar(r)
    ensures Scalars([r]) && Bytes([r]) == Encode(r)
  {
    assert Encode(r) + [] == Encode(r);
  }

  lemma AddText(c: seq<int>, r: int)
    requires r != LF
    ensures Ended(c + [r]) == Ended(c) && Open(c + [r]) == Open(c) + [r]
  {
    assert (c + [r])[..|c|] == c;
  }

  lemma AddNewline(c: seq<int>)
    ensures Ended(c + [LF]) == Ended(c) + [Open(c)] && Open(c + [LF]) == []
  {
    assert (c + [LF])[..|c|] == c;
  }

  // ---- The selected prefix ----

  // A prefix that ends with its k-th line feed is the text through line k.
  lemma {:induction false} ThroughPrefix(c: seq<int>, d: seq<int>, rest: seq<int>, k: nat)
    requires c == d + rest && k > 0 && d != [] && d[|d| - 1] == LF && Feeds(d) == k
    ensures Through(c, k) == d
    decreases |d|
  {
    assert c[1..] == d[1..] + rest && d == [d[0]] + d[1..];
    if |d| > 1 {
      if d[0] == LF {
        FeedsPositive(d[1..]);
        ThroughPrefix(c[1..], d[1..], rest, k - 1);
      } else {
        ThroughPrefix(c[1..], d[1..], rest, k);
      }
    }
  }

  // A text with fewer line feeds is selected whole.
  lemma {:induction false} ThroughAll(c: seq<int>, k: nat)
    requires Feeds(c) < k
    ensures Through(c, k) == c
  {
    if c != [] {
      assert c == [c[0]] + c[1..];
      if c[0] == LF {
        ThroughAll(c[1..], k - 1);
      } else {
        ThroughAll(c[1..], k);
      }
    }
  }

  function Feeds(c: seq<int>): (n: nat) {
    if c == [] then 0 else (if c[0] == LF then 1 else 0) + Feeds(c[1..])
  }

  lemma {:induction false} FeedsPositive(c: seq<int>)
    requires c != [] && c[|c| - 1] == LF
    ensures Feeds(c) > 0
  {
    if |c| > 1 {
      FeedsPositive(c[1..]);
    }
  }

  lemma {:induction false} FeedsJoin(a: seq<int>, b: seq<int>)
    ensures Feeds(a + b) == Feeds(a) + Feeds(b)
  {
    if a == [] {
      assert a + b == b;
    } else {
      assert (a + b)[1..] == a[1..] + b;
      FeedsJoin(a[1..], b);
    }
  }

  lemma {:induction false} EndedCount(c: seq<int>)
    ensures |Ended(c)| == Feeds(c)
  {
    if c != [] {
      var front, r := c[..|c| - 1], c[|c| - 1];
      assert c == front + [r];
      EndedCount(front);
      FeedsJoin(front, [r]);
      assert Feeds([r]) == if r == LF then 1 else 0;
    }
  }

  // Selecting through line k keeps exactly the first k lines.
  lemma ThroughLines(c: seq<int>, k: nat)
    requires k > 0
    ensures Lines(Through(c, k)) == if |Lines(c)| <= k then Lines(c) else Lines(c)[..k]
  {
    hide Through, Feeds, Ended, Open;
    var d := Through(c, k);
    ThroughIsPrefix(c, k);
    EndedPrefix(c, |d|);
    EndedCount(c);
    EndedCount(d);
    if Feeds(c) >= k {
      ThroughEnds(c, k);
    }
  }

  // Either the whole text, or a prefix that ends with the k-th line feed.
  lemma {:induction false} ThroughIsPrefix(c: seq<int>, k: nat)
    requires k > 0
    ensures
      var d := Through(c, k);
      |d| <= |c| && d == c[..|d|] && Feeds(d) <= k && (d != c ==> Feeds(d) == k)
  {
    if c != [] {
      assert c == [c[0]] + c[1..];
      if c[0] == LF && k > 1 {
        ThroughIsPrefix(c[1..], k - 1);
      } else if c[0] != LF {
        ThroughIsPrefix(c[1..], k);
      }
    }
  }

  lemma {:induction false} ThroughEnds(c: seq<int>, k: nat)
    requires k > 0 && Feeds(c) >= k
    ensures
      var d := Through(c, k);
      d != [] && d[|d| - 1] == LF && Feeds(d) == k
  {
    if c != [] {
      if c[0] == LF && k > 1 {
        ThroughEnds(c[1..], k - 1);
      } else if c[0] != LF {
        ThroughEnds(c[1..], k);
      }
    }
  }

  lemma {:induction false} EndedPrefix(c: seq<int>, n: nat)
    requires n <= |c|
    ensures |Ended(c[..n])| <= |Ended(c)| && Ended(c[..n]) == Ended(c)[..|Ended(c[..n])|]
    decreases |c|
  {
    if n < |c| {
      var front := c[..|c| - 1];
      assert front[..n] == c[..n];
      EndedPrefix(front, n);
    } else {
      assert c[..n] == c;
    }
  }

  // What is read before the k-th line feed, and the scalar after it, is selected.
  lemma {:induction false} SelectedGrows(c: seq<int>, d: seq<int>, rest: seq<int>, k: nat)
    requires c == d + rest && rest != [] && (k == 0 || Feeds(d) < k)
    ensures d + [rest[0]] <= Through(c, k)
    decreases |d|
  {
    if d == [] {
      assert c == rest;
      assert [] + [rest[0]] == [rest[0]];
    } else if k > 0 {
      assert c[1..] == d[1..] + rest && d == [d[0]] + d[1..];
      SelectedGrows(c[1..], d[1..], rest, if d[0] == LF then k - 1 else k);
      assert d + [rest[0]] == [d[0]] + (d[1..] + [rest[0]]);
    }
  }

  lemma BytesOfPrefix(d: seq<int>, c: seq<int>)
    requires Scalars(c) && d <= c
    ensures Scalars(d) && |Bytes(d)| <= |Bytes(c)|
  {
    assert c == d + c[|d|..];
    BytesJoin(d, c[|d|..]);
  }
}
