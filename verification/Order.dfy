/** The order in which `BTreeSet<String>` and `BTreeMap<String, _>` are walked. */
module Order {
  import opened Words
  import Utf8

  predicate LexLess(a: seq<Byte>, b: seq<Byte>)
    decreases |a|
  {
    b != [] && (a == [] || a[0] < b[0] || (a[0] == b[0] && LexLess(a[1..], b[1..])))
  }

  /** Strings compare as their UTF-8 bytes do. */
  predicate Less(s: string, t: string) {
    LexLess(Utf8.Encode(s), Utf8.Encode(t))
  }

  lemma {:induction false} LexTransitive(a: seq<Byte>, b: seq<Byte>, c: seq<Byte>)
    requires LexLess(a, b) && LexLess(b, c)
    ensures LexLess(a, c)
    decreases |a|
  {
    if a != [] && a[0] == b[0] && b[0] == c[0] {
      LexTransitive(a[1..], b[1..], c[1..]);
    }
  }

  lemma {:induction false} LexTotal(a: seq<Byte>, b: seq<Byte>)
    ensures LexLess(a, b) || a == b || LexLess(b, a)
    ensures !(LexLess(a, b) && LexLess(b, a))
    ensures !LexLess(a, a)
    decreases |a|
  {
    if a != [] {
      LexTotal(a[1..], a[1..]);
      if b != [] && a[0] == b[0] {
        LexTotal(a[1..], b[1..]);
        assert a == [a[0]] + a[1..] && b == [b[0]] + b[1..];
      }
    }
  }

  lemma LessTotal(s: string, t: string)
    ensures Less(s, t) || s == t || Less(t, s)
    ensures !(Less(s, t) && Less(t, s))
    ensures !Less(s, s)
  {
    LexTotal(Utf8.Encode(s), Utf8.Encode(t));
    LexTotal(Utf8.Encode(s), Utf8.Encode(s));
    if Utf8.Encode(s) == Utf8.Encode(t) {
      Utf8.EncodeInjective(s, t);
    }
  }

  lemma LessTransitive(s: string, t: string, u: string)
    requires Less(s, t) && Less(t, u)
    ensures Less(s, u)
  {
    LexTransitive(Utf8.Encode(s), Utf8.Encode(t), Utf8.Encode(u));
  }

  /* ----- In terms of characters ----- */

  lemma {:induction false} LexAfterPrefix(p: seq<Byte>, x: seq<Byte>, y: seq<Byte>)
    ensures LexLess(p + x, p + y) <==> LexLess(x, y)
    decreases |p|
  {
    if p == [] {
      assert p + x == x && p + y == y;
    } else {
      assert (p + x)[1..] == p[1..] + x && (p + y)[1..] == p[1..] + y;
      LexAfterPrefix(p[1..], x, y);
    }
  }

  lemma LexAt(a: seq<Byte>, b: seq<Byte>, k: nat)
    requires k < |a| && k < |b| && a[..k] == b[..k] && a[k] < b[k]
    ensures LexLess(a, b)
  {
    assert a == a[..k] + a[k..] && b == a[..k] + b[k..];
    LexAfterPrefix(a[..k], a[k..], b[k..]);
  }

  /** The bytes of a smaller character come first, whatever follows. */
  lemma CharsCompare(c: char, d: char, x: seq<Byte>, y: seq<Byte>)
    requires c < d
    ensures LexLess(Utf8.EncodeChar(c) + x, Utf8.EncodeChar(d) + y)
  {
    var k := FirstDifference(c, d);
    LexAt(Utf8.EncodeChar(c) + x, Utf8.EncodeChar(d) + y, k);
  }

  lemma FirstDifference(c: char, d: char) returns (k: nat)
    requires c < d
    ensures var a, b := Utf8.EncodeChar(c), Utf8.EncodeChar(d);
            k < |a| && k < |b| && a[..k] == b[..k] && a[k] < b[k]
  {
    var a, b := Utf8.EncodeChar(c), Utf8.EncodeChar(d);
    Utf8.EncodedScalar(c);
    Utf8.EncodedScalar(d);
    k := if a[0] != b[0] then 0 else if a[1] != b[1] then 1 else if a[2] != b[2] then 2 else 3;
  }

  /** The first k characters agree, and then one string ends or has the smaller character. */
  predicate DiffersAt(s: string, t: string, k: nat) {
    k <= |s| && k < |t| && s[..k] == t[..k] && (k == |s| || s[k] < t[k])
  }

  /** A proper prefix, or a smaller character where the two strings first differ. */
  ghost predicate Precedes(s: string, t: string) {
    exists k: nat :: DiffersAt(s, t, k)
  }

  lemma DiffersLater(s: string, t: string, k: nat)
    requires s != "" && t != ""
    ensures DiffersAt(s, t, k + 1) <==> s[0] == t[0] && DiffersAt(s[1..], t[1..], k)
  {
    if k < |s| && k + 1 < |t| {
      assert s[..k + 1] == [s[0]] + s[1..][..k] && t[..k + 1] == [t[0]] + t[1..][..k];
      assert s[..k + 1][0] == s[0] && t[..k + 1][0] == t[0];
      assert s[..k + 1][1..] == s[1..][..k] && t[..k + 1][1..] == t[1..][..k];
    }
  }

  lemma DiffersAtOnce(s: string, t: string)
    ensures DiffersAt(s, t, 0) <==> t != "" && (s == "" || s[0] < t[0])
    ensures s == "" || t == "" ==> forall k | k > 0 :: !DiffersAt(s, t, k)
  {
  }

  lemma PrecedesUnfolds(s: string, t: string)
    ensures Precedes(s, t) <==> t != "" && (s == "" || s[0] < t[0] || (s[0] == t[0] && Precedes(s[1..], t[1..])))
  {
    hide DiffersAt;
    DiffersAtOnce(s, t);
    if Precedes(s, t) {
      var k: nat :| DiffersAt(s, t, k);
      if k > 0 {
        DiffersLater(s, t, k - 1);
      }
    }
    if s != "" && t != "" && s[0] == t[0] && Precedes(s[1..], t[1..]) {
      var k: nat :| DiffersAt(s[1..], t[1..], k);
      DiffersLater(s, t, k);
    }
  }

  /** The byte order of UTF-8 is the order of the characters. */
  lemma {:induction false} LessIff(s: string, t: string)
    ensures Less(s, t) <==> Precedes(s, t)
    decreases |s|
  {
    hide LexLess, Precedes, Utf8.EncodeChar;
    PrecedesUnfolds(s, t);
    LexEnds(Utf8.Encode(s), Utf8.Encode(t));
    if s != "" && t != "" {
      var c, d, x, y := s[0], t[0], Utf8.Encode(s[1..]), Utf8.Encode(t[1..]);
      assert Utf8.Encode(s) == Utf8.EncodeChar(c) + x && Utf8.Encode(t) == Utf8.EncodeChar(d) + y;
      if c < d {
        CharsCompare(c, d, x, y);
      } else if d < c {
        CharsCompare(d, c, y, x);
        LessTotal(s, t);
      } else {
        LexAfterPrefix(Utf8.EncodeChar(c), x, y);
        LessIff(s[1..], t[1..]);
      }
    }
  }

  lemma LexEnds(a: seq<Byte>, b: seq<Byte>)
    ensures b == [] ==> !LexLess(a, b)
    ensures a == [] && b != [] ==> LexLess(a, b)
  {
  }

  predicate IsLeast(m: string, keys: set<string>) {
    m in keys && forall k <- keys :: k == m || Less(m, k)
  }

  method LeastKey(keys: set<string>) returns (m: string)
    requires keys != {}
    ensures IsLeast(m, keys)
  {
    m :| m in keys;
    var rest := keys - {m};
    while rest != {}
      invariant rest <= keys && IsLeast(m, keys - rest)
      decreases |rest|
    {
      var k :| k in rest;
      LessTotal(m, k);
      if Less(k, m) {
        forall x | x in keys - rest ensures x == k || Less(k, x) {
          if x != m {
            LessTransitive(k, m, x);
          }
        }
        m := k;
      }
      rest := rest - {k};
    }
    assert keys - rest == keys;
  }

  lemma LeastExists(keys: set<string>) returns (m: string)
    requires keys != {}
    ensures IsLeast(m, keys)
    decreases |keys|
  {
    m :| m in keys;
    var rest := keys - {m};
    if rest != {} {
      var k := LeastExists(rest);
      LessTotal(m, k);
      if Less(k, m) {
        m := k;
      } else {
        forall x | x in keys ensures x == m || Less(m, x) {
          if x != m && x != k {
            LessTransitive(m, k, x);
          }
        }
      }
    }
  }

  ghost function Least(keys: set<string>): (m: string)
    requires keys != {}
    ensures IsLeast(m, keys)
  {
    assert exists m :: IsLeast(m, keys) by {
      var m := LeastExists(keys);
    }
    var m :| IsLeast(m, keys);
    m
  }

  /** All the keys, each once, in ascending order. */
  ghost function Ascending(keys: set<string>): (r: seq<string>)
    decreases |keys|
  {
    if keys == {} then [] else [Least(keys)] + Ascending(keys - {Least(keys)})
  }

  predicate StrictlyAscending(s: seq<string>) {
    forall i, j | 0 <= i < j < |s| :: Less(s[i], s[j])
  }

  ghost predicate Enumerates(s: seq<string>, keys: set<string>) {
    && StrictlyAscending(s)
    && (forall k :: k in s <==> k in keys)
  }

  lemma {:induction false} AscendingEnumerates(keys: set<string>)
    ensures Enumerates(Ascending(keys), keys)
    ensures |Ascending(keys)| == |keys|
    decreases |keys|
  {
    hide Less;
    if keys != {} {
      var m := Least(keys);
      AscendingEnumerates(keys - {m});
      LeastGoesFirst(keys, m, Ascending(keys - {m}));
    }
  }

  lemma LeastGoesFirst(keys: set<string>, m: string, rest: seq<string>)
    requires IsLeast(m, keys) && Enumerates(rest, keys - {m})
    ensures Enumerates([m] + rest, keys)
  {
    hide Less;
    var s := [m] + rest;
    forall i, j | 0 <= i < j < |s| ensures Less(s[i], s[j]) {
      assert s[j] == rest[j - 1] && rest[j - 1] in rest;
      if i > 0 {
        assert Less(rest[i - 1], rest[j - 1]);
      }
    }
  }

  /** A strictly ascending sequence is determined by its elements. */
  lemma {:induction false} EnumerationUnique(s: seq<string>, keys: set<string>)
    requires Enumerates(s, keys)
    ensures s == Ascending(keys)
    decreases |s|
  {
    if s == [] {
      assert forall k | k in keys :: k in s;
    } else {
      assert s[0] in s;
      var m := Least(keys);
      var i :| 0 <= i < |s| && s[i] == m;
      LessTotal(s[0], m);
      assert s[0] == m;
      forall k ensures k in s[1..] <==> k in keys - {m} {
        LessTotal(m, m);
        if k in s[1..] {
          var j :| 1 <= j < |s| && s[j] == k;
          assert Less(s[0], s[j]);
        }
      }
      EnumerationUnique(s[1..], keys - {m});
      assert s == [s[0]] + s[1..];
    }
  }

  /** Walks the keys in order, as an iterator over the collection does. */
  method InOrder(keys: set<string>) returns (r: seq<string>)
    ensures r == Ascending(keys)
  {
    hide Less;
    r := [];
    var rest := keys;
    while rest != {}
      invariant rest <= keys
      invariant r + Ascending(rest) == Ascending(keys)
      decreases |rest|
    {
      var m := LeastKey(rest);
      LessTotal(m, Least(rest));
      assert m == Least(rest);
      assert r + ([m] + Ascending(rest - {m})) == (r + [m]) + Ascending(rest - {m});
      r := r + [m];
      rest := rest - {m};
    }
    assert r + Ascending({}) == r;
  }
}
