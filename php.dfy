/** The PHP built-ins the hotspot console relies on, over strings as sequences of characters. */
module Php {

  datatype Option<T> = None | Some(value: T)

  /** A call that either returns a value or throws an exception carrying a message. */
  datatype Result<T> = Ok(value: T) | Err(message: string)

  /** A PHP array of string attributes, such as one row the RouterOS client returns or $_POST. */
  type Record = map<string, string>

  /** `$r[$k] ?? $default` */
  function Get(r: Record, k: string, default: string): string
  {
    if k in r then r[k] else default
  }

  /** PHP truthiness of a string: "" and "0" are false, everything else is true. */
  predicate IsTruthy(s: string)
  {
    s != "" && s != "0"
  }

  // ---------------------------------------------------------------- trim()

  /** The characters trim() strips by default: " ", "\t", "\n", "\r", "\0" and "\x0B". */
  predicate IsStripped(c: char)
  {
    c == ' ' || c == '\t' || c == '\n' || c == '\r' || c as int == 0 || c as int == 11
  }

  /** ltrim(): drops the stripped characters at the front. */
  function TrimStart(s: string): string
  {
    if s != [] && IsStripped(s[0]) then TrimStart(s[1..]) else s
  }

  /** ltrim() keeps a suffix that starts with a kept character, and drops only stripped ones. */
  lemma {:induction false} TrimStartShape(s: string)
    ensures var r := TrimStart(s);
      && |r| <= |s| && r == s[|s| - |r|..]
      && (r != [] ==> !IsStripped(r[0]))
      && forall i :: 0 <= i < |s| - |r| ==> IsStripped(s[i])
  {
    if s != [] && IsStripped(s[0]) {
      TrimStartShape(s[1..]);
      assert forall i :: 1 <= i < |s| ==> s[i] == s[1..][i - 1];
    }
  }

  /** rtrim(): drops the stripped characters at the back. */
  function TrimEnd(s: string): string
  {
    if s != [] && IsStripped(s[|s| - 1]) then TrimEnd(s[..|s| - 1]) else s
  }

  /** rtrim() keeps a prefix that ends with a kept character, and drops only stripped ones. */
  lemma {:induction false} TrimEndShape(s: string)
    ensures var r := TrimEnd(s);
      && |r| <= |s| && r == s[..|r|]
      && (r != [] ==> !IsStripped(r[|r| - 1]))
      && forall i :: |r| <= i < |s| ==> IsStripped(s[i])
  {
    if s != [] && IsStripped(s[|s| - 1]) {
      TrimEndShape(s[..|s| - 1]);
    }
  }

  /** trim() */
  function Trim(s: string): string
  {
    TrimEnd(TrimStart(s))
  }

  /** trim() gives "" exactly for strings made only of stripped characters. */
  lemma TrimEmptyIff(s: string)
    ensures Trim(s) == "" <==> forall i :: 0 <= i < |s| ==> IsStripped(s[i])
  {
    var t := TrimStart(s);
    TrimStartShape(s);
    TrimEndShape(t);
    if t != [] {
      assert t[0] == s[|s| - |t|];
    }
  }

  /** A trimmed string has nothing left to trim. */
  lemma TrimIdempotent(s: string)
    ensures Trim(Trim(s)) == Trim(s)
  {
    var u := TrimStart(s);
    var t := Trim(s);
    TrimStartShape(s);
    TrimEndShape(u);
    if t != [] {
      assert t[0] == u[0];
      assert TrimStart(t) == t;
      assert TrimEnd(t) == t;
    }
  }

  // ---------------------------------------------------------------- case folding

  /** ASCII lower-casing of one character, as strtolower() does since PHP 8.2. */
  function LowerChar(c: char): char
  {
    if 'A' <= c <= 'Z' then (c as int + 32) as char else c
  }

  /** ASCII upper-casing of one character, as strtoupper() does since PHP 8.2. */
  function UpperChar(c: char): char
  {
    if 'a' <= c <= 'z' then (c as int - 32) as char else c
  }

  /** strtolower() */
  function ToLower(s: string): string
  {
    seq(|s|, i requires 0 <= i < |s| => LowerChar(s[i]))
  }

  /** strtoupper() */
  function ToUpper(s: string): string
  {
    seq(|s|, i requires 0 <= i < |s| => UpperChar(s[i]))
  }

  /** Lower-casing keeps the length, leaves no upper-case letter and changes nothing a second time. */
  lemma ToLowerProperties(s: string)
    ensures |ToLower(s)| == |s|
    ensures forall i :: 0 <= i < |s| ==> !('A' <= ToLower(s)[i] <= 'Z')
    ensures ToLower(ToLower(s)) == ToLower(s)
  {
  }

  // ---------------------------------------------------------------- strpos() / stripos()

  /** The needle occurs in the haystack at position i. */
  predicate OccursAt(hay: string, needle: string, i: nat)
  {
    i + |needle| <= |hay| && hay[i..i + |needle|] == needle
  }

  /** The first occurrence of needle in hay at or after position from. */
  function FindFrom(hay: string, needle: string, from: nat): (r: Option<nat>)
    requires from <= |hay| + 1
    ensures r.Some? ==> from <= r.value && OccursAt(hay, needle, r.value)
    ensures r.Some? ==> forall j :: from <= j < r.value ==> !OccursAt(hay, needle, j)
    ensures r.None? ==> forall j :: from <= j ==> !OccursAt(hay, needle, j)
    decreases |hay| + 1 - from
  {
    if from + |needle| > |hay| then None
    else if hay[from..from + |needle|] == needle then Some(from)
    else FindFrom(hay, needle, from + 1)
  }

  /** strpos($hay, $needle): the first position of the needle, or None where PHP returns false. */
  function StrPos(hay: string, needle: string): (r: Option<nat>)
    ensures r.Some? ==> OccursAt(hay, needle, r.value)
    ensures r.Some? ==> forall j :: 0 <= j < r.value ==> !OccursAt(hay, needle, j)
    ensures r.None? <==> forall j :: 0 <= j ==> !OccursAt(hay, needle, j)
  {
    FindFrom(hay, needle, 0)
  }

  /** stripos($hay, $needle), with ASCII case folding. */
  function StrIPos(hay: string, needle: string): Option<nat>
  {
    StrPos(ToLower(hay), ToLower(needle))
  }

  /** Lower-casing after upper-casing is lower-casing. */
  lemma LowerOfUpper(s: string)
    ensures ToLower(ToUpper(s)) == ToLower(s)
  {
    assert forall i :: 0 <= i < |s| ==> ToLower(ToUpper(s))[i] == LowerChar(UpperChar(s[i]));
  }

  /** stripos() does not depend on the case of either argument. */
  lemma StrIPosIgnoresCase(hay: string, needle: string)
    ensures StrIPos(ToUpper(hay), needle) == StrIPos(hay, needle)
    ensures StrIPos(hay, ToUpper(needle)) == StrIPos(hay, needle)
    ensures StrIPos(ToLower(hay), ToLower(needle)) == StrIPos(hay, needle)
  {
    LowerOfUpper(hay);
    LowerOfUpper(needle);
    ToLowerProperties(hay);
    ToLowerProperties(needle);
  }

  /** At the position stripos() reports, the needle matches the haystack character by character up to ASCII case. */
  lemma StrIPosMatch(hay: string, needle: string)
    ensures StrIPos(hay, needle).Some? ==>
      var p := StrIPos(hay, needle).value;
      p + |needle| <= |hay| && forall k :: 0 <= k < |needle| ==> LowerChar(hay[p + k]) == LowerChar(needle[k])
  {
    var r := StrIPos(hay, needle);
    if r.Some? {
      var p := r.value;
      var lh, ln := ToLower(hay), ToLower(needle);
      assert OccursAt(lh, ln, p);
      forall k | 0 <= k < |needle|
        ensures LowerChar(hay[p + k]) == LowerChar(needle[k])
      {
        assert lh[p..p + |ln|][k] == ln[k];
      }
    }
  }

  // ---------------------------------------------------------------- explode() / implode()

  /** implode($sep, $xs) with a one-character separator. */
  function Implode(sep: char, xs: seq<string>): string
  {
    if |xs| == 0 then "" else if |xs| == 1 then xs[0] else xs[0] + [sep] + Implode(sep, xs[1..])
  }

  /** explode($sep, $s) with a one-character separator: the pieces between separators, at least one. */
  function Explode(sep: char, s: string): (r: seq<string>)
    ensures |r| >= 1
  {
    if s == [] then [""]
    else if s[0] == sep then [""] + Explode(sep, s[1..])
    else var t := Explode(sep, s[1..]); [[s[0]] + t[0]] + t[1..]
  }

  /** A string without the separator is one piece. */
  lemma {:induction false} ExplodeWhole(sep: char, a: string)
    requires sep !in a
    ensures Explode(sep, a) == [a]
  {
    if a != [] {
      ExplodeWhole(sep, a[1..]);
      assert [a[0]] + a[1..] == a;
    }
  }

  /** A piece without the separator, then the separator, splits off exactly that piece. */
  lemma {:induction false} ExplodeFirst(sep: char, a: string, rest: string)
    requires sep !in a
    ensures Explode(sep, a + [sep] + rest) == [a] + Explode(sep, rest)
  {
    if a == [] {
      assert a + [sep] + rest == [sep] + rest;
      assert ([sep] + rest)[1..] == rest;
    } else {
      var s := a + [sep] + rest;
      assert s[0] == a[0] && s[1..] == a[1..] + [sep] + rest;
      ExplodeFirst(sep, a[1..], rest);
      assert [a[0]] + a[1..] == a;
    }
  }

  /** explode() undoes implode() when no piece holds the separator. */
  lemma {:induction false} ExplodeImplode(sep: char, xs: seq<string>)
    requires |xs| >= 1
    requires forall i :: 0 <= i < |xs| ==> sep !in xs[i]
    ensures Explode(sep, Implode(sep, xs)) == xs
  {
    if |xs| == 1 {
      ExplodeWhole(sep, xs[0]);
    } else {
      ExplodeFirst(sep, xs[0], Implode(sep, xs[1..]));
      ExplodeImplode(sep, xs[1..]);
      assert [xs[0]] + xs[1..] == xs;
    }
  }

  /** implode() undoes explode(): splitting loses nothing. */
  lemma {:induction false} ImplodeExplode(sep: char, s: string)
    ensures Implode(sep, Explode(sep, s)) == s
  {
    if s != [] {
      var t := Explode(sep, s[1..]);
      ImplodeExplode(sep, s[1..]);
      if s[0] == sep {
        assert ([""] + t)[1..] == t;
        assert s == [sep] + s[1..];
      } else {
        var r := [[s[0]] + t[0]] + t[1..];
        assert r[1..] == t[1..];
        if |t| == 1 {
          assert Implode(sep, t) == t[0];
        } else {
          assert Implode(sep, t) == t[0] + [sep] + Implode(sep, t[1..]);
        }
        assert s == [s[0]] + s[1..];
      }
    }
  }

  /** array_pad($xs, $n, $pad) for a non-negative length. */
  function Pad(xs: seq<string>, n: nat, pad: string): (r: seq<string>)
    ensures |r| == if |xs| < n then n else |xs|
    ensures forall i :: 0 <= i < |xs| ==> r[i] == xs[i]
    ensures forall i :: |xs| <= i < |r| ==> r[i] == pad
  {
    if |xs| < n then xs + seq(n - |xs|, _ => pad) else xs
  }

  // ---------------------------------------------------------------- str_replace()

  /** str_replace($from, $to, $s) for single characters. */
  function ReplaceChar(s: string, from: char, to: char): string
  {
    seq(|s|, i requires 0 <= i < |s| => if s[i] == from then to else s[i])
  }

  // ---------------------------------------------------------------- string order

  /** strcmp($a, $b) < 0: character-wise lexicographic order. */
  predicate StrLess(a: string, b: string)
  {
    if a == [] then b != []
    else if b == [] then false
    else if a[0] != b[0] then a[0] < b[0]
    else StrLess(a[1..], b[1..])
  }

  lemma {:induction false} StrLessIrreflexive(a: string)
    ensures !StrLess(a, a)
  {
    if a != [] {
      StrLessIrreflexive(a[1..]);
    }
  }

  lemma {:induction false} StrLessTransitive(a: string, b: string, c: string)
    requires StrLess(a, b) && StrLess(b, c)
    ensures StrLess(a, c)
  {
    if a != [] && b != [] && c != [] && a[0] == b[0] && b[0] == c[0] {
      StrLessTransitive(a[1..], b[1..], c[1..]);
    }
  }

  lemma {:induction false} StrLessTotal(a: string, b: string)
    ensures a == b || StrLess(a, b) || StrLess(b, a)
  {
    if a != [] && b != [] && a[0] == b[0] {
      StrLessTotal(a[1..], b[1..]);
      if a[1..] == b[1..] {
        assert a == [a[0]] + a[1..] && b == [b[0]] + b[1..];
      }
    }
  }

  /** Strictly increasing, hence free of duplicates. */
  predicate StrictlySorted(s: seq<string>)
  {
    forall i, j :: 0 <= i < j < |s| ==> StrLess(s[i], s[j])
  }

  /** A strictly sorted sequence has no duplicates. */
  lemma StrictlySortedDistinct(s: seq<string>)
    requires StrictlySorted(s)
    ensures forall i, j :: 0 <= i < j < |s| ==> s[i] != s[j]
  {
    forall i, j | 0 <= i < j < |s| ensures s[i] != s[j] {
      StrLessIrreflexive(s[i]);
    }
  }

  // ---------------------------------------------------------------- substr() / ksort()

  /** substr($s, 0, $n) */
  function Head(s: string, n: nat): (r: string)
    ensures |r| == if |s| <= n then |s| else n
    ensures r == s[..|r|]
  {
    if |s| <= n then s else s[..n]
  }

  /** The least string of a non-empty set. */
  method Least(keys: set<string>) returns (m: string)
    requires keys != {}
    ensures m in keys
    ensures forall k :: k in keys && k != m ==> StrLess(m, k)
  {
    m :| m in keys;
    var todo := keys - {m};
    while todo != {}
      invariant todo <= keys && m in keys && m !in todo
      invariant forall k :: k in keys - todo && k != m ==> StrLess(m, k)
      decreases |todo|
    {
      var x :| x in todo;
      StrLessTotal(x, m);
      if StrLess(x, m) {
        forall k | k in keys - todo && k != m
          ensures StrLess(x, k)
        {
          StrLessTransitive(x, m, k);
        }
        m := x;
      }
      todo := todo - {x};
    }
  }

  /** ksort() of an array whose keys are strings: the keys in ascending order, each once. */
  method SortedKeys(keys: set<string>) returns (r: seq<string>)
    ensures StrictlySorted(r)
    ensures forall k :: k in r <==> k in keys
    ensures |r| == |keys|
  {
    r := [];
    var rest := keys;
    while rest != {}
      invariant rest <= keys
      invariant forall k :: k in keys <==> k in r || k in rest
      invariant forall k :: k in r ==> k !in rest
      invariant StrictlySorted(r)
      invariant forall i, k :: 0 <= i < |r| && k in rest ==> StrLess(r[i], k)
      invariant |r| + |rest| == |keys|
      decreases |rest|
    {
      var m := Least(rest);
      r := r + [m];
      rest := rest - {m};
    }
  }
}
