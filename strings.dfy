/** Small sequence and string helpers shared by the catalog, the flag builder and the template. */
module Strings {

  datatype Option<+T> = None | Some(value: T)

  /** `parts.join(sep)`: the parts in order with `sep` between neighbours, "" for no parts. */
  function Join(parts: seq<string>, sep: string): (r: string)
    ensures parts != [] ==> parts[0] <= r
  {
    if |parts| == 0 then ""
    else if |parts| == 1 then parts[0]
    else parts[0] + sep + Join(parts[1..], sep)
  }

  /** A character outside the Basic Multilingual Plane takes two UTF-16 code units. */
  predicate Astral(ch: char)
  {
    ch as int >= 0x1_0000
  }

  /**
   * JavaScript's `s.length`: the number of UTF-16 code units, which counts a
   * character outside the Basic Multilingual Plane twice.
   */
  function Utf16Length(s: string): (n: nat)
    ensures |s| <= n <= 2 * |s|
    ensures n == |s| <==> forall i :: 0 <= i < |s| ==> !Astral(s[i])
  {
    if s == [] then 0
    else
      var n := (if Astral(s[0]) then 2 else 1) + Utf16Length(s[1..]);
      assert forall i :: 1 <= i < |s| ==> s[i] == s[1..][i - 1];
      n
  }

  /** `t` occurs in `s` starting at offset `k`. */
  predicate InfixAt(t: string, s: string, k: nat)
  {
    k + |t| <= |s| && s[k..k + |t|] == t
  }

  /** `s.includes(t)`. */
  ghost predicate Infix(t: string, s: string)
  {
    exists k: nat :: InfixAt(t, s, k)
  }

  /** Joining two non-empty lists is joining each of them with one separator in between. */
  lemma {:induction false} JoinConcat(a: seq<string>, b: seq<string>, sep: string)
    requires a != [] && b != []
    ensures Join(a + b, sep) == Join(a, sep) + sep + Join(b, sep)
  {
    if |a| == 1 {
      assert (a + b)[0] == a[0];
      assert (a + b)[1..] == b;
    } else {
      assert (a + b)[0] == a[0];
      assert (a + b)[1..] == a[1..] + b;
      JoinConcat(a[1..], b, sep);
    }
  }

  /** Every part survives the join verbatim: it occurs in the joined text. */
  lemma {:induction false} JoinKeepsParts(parts: seq<string>, sep: string, i: nat)
    requires i < |parts|
    ensures Infix(parts[i], Join(parts, sep))
  {
    var s := Join(parts, sep);
    if i == 0 {
      assert InfixAt(parts[0], s, 0) by {
        assert |parts| == 1 || s == parts[0] + (sep + Join(parts[1..], sep));
      }
    } else {
      JoinKeepsParts(parts[1..], sep, i - 1);
      var rest := Join(parts[1..], sep);
      var k: nat :| InfixAt(parts[1..][i - 1], rest, k);
      var off := |parts[0]| + |sep|;
      assert s == (parts[0] + sep) + rest;
      assert s[off + k..off + k + |parts[i]|] == rest[k..k + |parts[i]|];
      assert InfixAt(parts[i], s, off + k);
    }
  }

  /** An occurrence inside a middle piece is an occurrence in the whole. */
  lemma InfixWithin(t: string, a: string, s: string, b: string)
    requires Infix(t, s)
    ensures Infix(t, a + s + b)
  {
    var k: nat :| InfixAt(t, s, k);
    var w := a + s + b;
    assert w[|a| + k..|a| + k + |t|] == s[k..k + |t|];
    assert InfixAt(t, w, |a| + k);
  }

  lemma JoinTwo(a: string, b: string)
    ensures Join([a, b], " ") == a + " " + b
  {
    assert [a, b][1..] == [b];
  }

  lemma JoinThree(a: string, b: string, c: string)
    ensures Join([a, b, c], " ") == a + " " + b + " " + c
  {
    assert [a, b, c][1..] == [b, c];
    JoinTwo(b, c);
  }
}
