/**
 * The PHP built-ins that index.php uses to turn a request into path
 * segments and to build resource links: `explode`, `str_replace` (with an
 * empty replacement), `array_filter` without a callback, array indexing
 * with a possibly missing key, and the conversion of an integer to a string.
 */
module Php {

  datatype Option<+T> = None | Some(value: T)

  /** One key/value pair of a PHP array whose keys are integers. */
  datatype Entry = Entry(key: nat, value: string)

  /** A PHP array with integer keys and string values, in insertion order.
      `count($a)` is `|a|`. */
  type PhpArray = seq<Entry>

  predicate DistinctKeys(a: PhpArray) {
    forall i, j :: 0 <= i < j < |a| ==> a[i].key != a[j].key
  }

  /** `$a[$k]`: the value stored under key `k`, or null (None) when there is none. */
  function Lookup(a: PhpArray, k: nat): (r: Option<string>)
    ensures r.Some? ==> Entry(k, r.value) in a
    ensures r.None? ==> forall i :: 0 <= i < |a| ==> a[i].key != k
  {
    if a == [] then None
    else if a[0].key == k then Some(a[0].value)
    else Lookup(a[1..], k)
  }

  /** The array `[0 => s[0], 1 => s[1], ...]` that `explode` returns. */
  function Indexed(s: seq<string>): (r: PhpArray)
    ensures |r| == |s|
    ensures forall i :: 0 <= i < |s| ==> r[i] == Entry(i, s[i])
  {
    seq(|s|, i requires 0 <= i < |s| => Entry(i, s[i]))
  }

  /** Key k of an exploded array holds the k-th piece; keys are distinct. */
  lemma IndexedLookup(s: seq<string>)
    ensures DistinctKeys(Indexed(s))
    ensures forall k: nat :: Lookup(Indexed(s), k) == if k < |s| then Some(s[k]) else None
  {
    var r := Indexed(s);
    forall k: nat ensures Lookup(r, k) == if k < |s| then Some(s[k]) else None {
      if k < |s| {
        assert r[k].key == k;
      }
    }
  }

  /** The values of an array, in order. */
  function Values(a: PhpArray): (r: seq<string>)
    ensures |r| == |a| && forall i :: 0 <= i < |a| ==> r[i] == a[i].value
  {
    seq(|a|, i requires 0 <= i < |a| => a[i].value)
  }

  /** PHP's truth value of a string: only "" and "0" are false. */
  predicate Truthy(s: string) {
    s != "" && s != "0"
  }

  /** `array_filter($a)` without a callback: keeps the truthy entries under
      their original keys, in order, without re-indexing. */
  function ArrayFilter(a: PhpArray): (r: PhpArray)
    ensures |r| <= |a|
  {
    if a == [] then []
    else if Truthy(a[0].value) then [a[0]] + ArrayFilter(a[1..])
    else ArrayFilter(a[1..])
  }

  /** What `array_filter` keeps: exactly the truthy entries, keys unchanged. */
  lemma {:induction false} FilterMembers(a: PhpArray)
    ensures forall e :: e in ArrayFilter(a) <==> e in a && Truthy(e.value)
  {
    if a != [] {
      FilterMembers(a[1..]);
      assert a == [a[0]] + a[1..];
    }
  }

  /** `array_filter` keeps keys distinct. */
  lemma {:induction false} FilterDistinct(a: PhpArray)
    requires DistinctKeys(a)
    ensures DistinctKeys(ArrayFilter(a))
  {
    if a != [] {
      assert DistinctKeys(a[1..]);
      FilterDistinct(a[1..]);
      if Truthy(a[0].value) {
        var rest := ArrayFilter(a[1..]);
        FilterMembers(a[1..]);
        forall e | e in rest ensures e.key != a[0].key {
          var j :| 0 <= j < |a[1..]| && a[1..][j] == e;
          assert a[j + 1] == e;
        }
        var r := [a[0]] + rest;
        forall i, j | 0 <= i < j < |r| ensures r[i].key != r[j].key {
          if i == 0 {
            assert r[j] == rest[j - 1] && r[j] in rest;
          } else {
            assert r[i] == rest[i - 1] && r[j] == rest[j - 1];
          }
        }
      }
    }
  }

  /** Looking a key up after `array_filter` finds the original value when it
      is truthy and null otherwise: keys are kept, not re-numbered. */
  lemma {:induction false} LookupFilter(a: PhpArray, k: nat)
    requires DistinctKeys(a)
    ensures Lookup(ArrayFilter(a), k) ==
              match Lookup(a, k)
              case Some(v) => if Truthy(v) then Some(v) else None
              case None => None
  {
    if a != [] {
      assert DistinctKeys(a[1..]);
      if a[0].key == k {
        FilterMembers(a[1..]);
        forall e | e in a[1..] ensures e.key != k {
          var j :| 0 <= j < |a[1..]| && a[1..][j] == e;
          assert a[j + 1] == e;
        }
      } else {
        LookupFilter(a[1..], k);
      }
    }
  }

  // ---------------------------------------------------------------------
  // explode('/', $s)

  /** `explode('/', s)`: the pieces of `s` between slashes, at least one. */
  function Explode(s: string): (r: seq<string>)
    ensures |r| >= 1
    ensures forall i :: 0 <= i < |r| ==> '/' !in r[i]
  {
    if s == [] then [""]
    else
      var rest := Explode(s[1..]);
      if s[0] == '/' then [""] + rest
      else [[s[0]] + rest[0]] + rest[1..]
  }

  /** `implode('/', parts)`, the inverse of `Explode`. */
  function Join(parts: seq<string>): string
    requires |parts| >= 1
  {
    if |parts| == 1 then parts[0] else parts[0] + "/" + Join(parts[1..])
  }

  /** Exploding loses nothing: joining the pieces gives back the string. */
  lemma {:induction false} JoinExplode(s: string)
    ensures Join(Explode(s)) == s
  {
    if s != [] {
      var rest := Explode(s[1..]);
      JoinExplode(s[1..]);
      if s[0] == '/' {
        assert Explode(s) == [""] + rest;
        assert ([""] + rest)[1..] == rest;
        assert s == "/" + s[1..];
      } else if |rest| == 1 {
        assert Explode(s) == [[s[0]] + rest[0]];
      } else {
        var r := [[s[0]] + rest[0]] + rest[1..];
        assert r[1..] == rest[1..];
        assert s == [s[0]] + s[1..];
      }
    }
  }

  /** A first piece without a slash stays glued to the first piece of the rest. */
  lemma {:induction false} ExplodePrefix(w: string, t: string)
    requires '/' !in w
    ensures Explode(w + t) == [w + Explode(t)[0]] + Explode(t)[1..]
  {
    if w == [] {
      assert w + t == t;
      assert w + Explode(t)[0] == Explode(t)[0];
      assert [Explode(t)[0]] + Explode(t)[1..] == Explode(t);
    } else {
      ExplodePrefix(w[1..], t);
      assert (w + t)[0] == w[0];
      assert (w + t)[1..] == w[1..] + t;
      assert [w[0]] + (w[1..] + Explode(t)[0]) == w + Explode(t)[0];
    }
  }

  /** A leading slash gives an empty first piece. */
  lemma ExplodeSlash(t: string)
    ensures Explode("/" + t) == [""] + Explode(t)
  {
    assert ("/" + t)[0] == '/' && ("/" + t)[1..] == t;
  }

  /** Exploding a join of slash-free pieces gives back the pieces. */
  lemma {:induction false} ExplodeJoin(parts: seq<string>)
    requires |parts| >= 1
    requires forall i :: 0 <= i < |parts| ==> '/' !in parts[i]
    ensures Explode(Join(parts)) == parts
  {
    ExplodePrefix(parts[0], if |parts| == 1 then "" else "/" + Join(parts[1..]));
    if |parts| == 1 {
      assert parts[0] + "" == parts[0];
    } else {
      ExplodeJoin(parts[1..]);
      var t := Join(parts[1..]);
      ExplodeSlash(t);
      assert parts[0] + "/" + t == parts[0] + ("/" + t);
      assert parts[0] + "" == parts[0];
      assert [parts[0]] + parts[1..] == parts;
    }
  }

  // ---------------------------------------------------------------------
  // str_replace($pat, '', $s)

  /** `str_replace(pat, '', s)`: removes every occurrence of `pat`, scanning
      from the left, without looking again at what the removal joins up. */
  function RemoveAll(s: string, pat: string): (r: string)
    requires pat != []
    ensures |r| <= |s|
    decreases |s|
  {
    if |s| < |pat| then s
    else if s[..|pat|] == pat then RemoveAll(s[|pat|..], pat)
    else [s[0]] + RemoveAll(s[1..], pat)
  }

  /** A string lacking some character of `pat` comes back unchanged. */
  lemma {:induction false} RemoveAllAbsent(s: string, pat: string, c: char)
    requires pat != [] && c in pat && c !in s
    ensures RemoveAll(s, pat) == s
    decreases |s|
  {
    if |s| >= |pat| {
      assert c !in s[..|pat|] by {
        forall i | 0 <= i < |pat| ensures s[..|pat|][i] != c {
          assert s[..|pat|][i] == s[i];
        }
      }
      assert s[..|pat|] != pat;
      assert c !in s[1..] by {
        forall i | 0 <= i < |s[1..]| ensures s[1..][i] != c {
          assert s[1..][i] == s[i + 1];
        }
      }
      RemoveAllAbsent(s[1..], pat, c);
      assert s == [s[0]] + s[1..];
    }
  }

  /** A text whose second character is not `pat[1]` loses no first character. */
  lemma RemoveAllHead(s: string, pat: string)
    requires |pat| >= 2 && s != [] && (|s| >= 2 ==> s[1] != pat[1])
    ensures RemoveAll(s, pat) == [s[0]] + RemoveAll(s[1..], pat)
  {
    if |s| >= |pat| {
      assert s[..|pat|][1] == s[1];
    } else {
      assert [s[0]] + s[1..] == s;
    }
  }

  /** Characters before a part of the text that cannot start an occurrence
      of `pat` (none of them is `pat[1]`, nor is the next one) are kept. */
  lemma {:induction false} RemoveAllKeepsPrefix(w: string, t: string, pat: string)
    requires |pat| >= 2 && pat[1] !in w && (t != [] ==> t[0] != pat[1])
    ensures RemoveAll(w + t, pat) == w + RemoveAll(t, pat)
  {
    if w != [] {
      var s := w + t;
      assert s[1..] == w[1..] + t;
      if |s| >= 2 {
        if |w| >= 2 { assert s[1] == w[1]; } else { assert s[1] == t[0]; }
      }
      RemoveAllHead(s, pat);
      assert w == [w[0]] + w[1..];
      RemoveAllKeepsPrefix(w[1..], t, pat);
      assert [w[0]] + (w[1..] + RemoveAll(t, pat)) == w + RemoveAll(t, pat);
    } else {
      assert w + t == t;
    }
  }

  // ---------------------------------------------------------------------
  // "$n" for an integer n

  predicate IsDigit(c: char) {
    '0' <= c <= '9'
  }

  predicate AllDigits(s: string) {
    forall i :: 0 <= i < |s| ==> IsDigit(s[i])
  }

  function DigitChar(d: nat): (c: char)
    requires d < 10
    ensures IsDigit(c) && c as int - '0' as int == d
  {
    ('0' as int + d) as char
  }

  /** PHP's string form of a non-negative integer: decimal, no leading zero. */
  function Decimal(n: nat): (r: string)
    ensures r != [] && AllDigits(r)
    ensures r[0] == '0' ==> n == 0
    ensures '/' !in r && '~' !in r
  {
    if n < 10 then [DigitChar(n)]
    else Decimal(n / 10) + [DigitChar(n % 10)]
  }
}
