/**
 * The JavaScript string built-ins the application relies on: the white-space
 * class shared by `String.prototype.trim` and the regular-expression escape
 * `\s`, the ASCII word class of `\w`, trimming, `Array.prototype.join`,
 * `String.prototype.repeat` and ASCII lower-casing.
 *
 * A `string` here is a sequence of UTF-16 code units, one `char` each; the
 * model only ever meets text of the Basic Multilingual Plane.
 */
module JsText {

  /** JavaScript white space and line terminators (the class `\s`, and what `trim` removes). */
  predicate IsSpace(c: char) {
    || c == '\t' || c == '\n' || c == '\U{000B}' || c == '\U{000C}' || c == '\r' || c == ' '
    || c == '\U{00A0}' || c == '\U{1680}' || ('\U{2000}' <= c <= '\U{200A}')
    || c == '\U{2028}' || c == '\U{2029}' || c == '\U{202F}' || c == '\U{205F}'
    || c == '\U{3000}' || c == '\U{FEFF}'
  }

  /** The class `\w` of a regular expression without the `u` flag: `[A-Za-z0-9_]`. */
  predicate IsWordChar(c: char) {
    ('a' <= c <= 'z') || ('A' <= c <= 'Z') || ('0' <= c <= '9') || c == '_'
  }

  /** No white space at either end. */
  predicate NoEdgeSpace(s: string) {
    s == [] || (!IsSpace(s[0]) && !IsSpace(s[|s| - 1]))
  }

  /** No two adjacent white-space characters. */
  predicate NoDoubleSpace(s: string) {
    forall i :: 0 <= i < |s| - 1 ==> !(IsSpace(s[i]) && IsSpace(s[i + 1]))
  }

  /** Every white-space character is a plain space. */
  predicate OnlyPlainSpaces(s: string) {
    forall i :: 0 <= i < |s| && IsSpace(s[i]) ==> s[i] == ' '
  }

  predicate AllSpace(s: string) {
    forall i :: 0 <= i < |s| ==> IsSpace(s[i])
  }

  /** JavaScript truthiness of a string: only the empty string is falsy. */
  predicate Truthy(s: string) {
    s != ""
  }

  /** `String.prototype.trimStart`: drops the longest white-space prefix. */
  function TrimStart(s: string): (r: string)
    ensures |r| <= |s| && r == s[|s| - |r|..]
    ensures r == [] || !IsSpace(r[0])
    ensures forall i :: 0 <= i < |s| - |r| ==> IsSpace(s[i])
    decreases |s|
  {
    if s != [] && IsSpace(s[0]) then TrimStart(s[1..]) else s
  }

  /** `String.prototype.trimEnd`: drops the longest white-space suffix. */
  function TrimEnd(s: string): (r: string)
    ensures |r| <= |s| && r == s[..|r|]
    ensures r == [] || !IsSpace(r[|r| - 1])
    ensures forall i :: |r| <= i < |s| ==> IsSpace(s[i])
    decreases |s|
  {
    if s != [] && IsSpace(s[|s| - 1]) then TrimEnd(s[..|s| - 1]) else s
  }

  /** Number of characters `trim` removes at the front. */
  function LeadingSpaces(s: string): nat {
    |s| - |TrimStart(s)|
  }

  /** `String.prototype.trim`: the slice of `s` between its white-space prefix and suffix. */
  function Trim(s: string): (r: string)
    ensures NoEdgeSpace(r)
    ensures LeadingSpaces(s) + |r| <= |s| && r == s[LeadingSpaces(s)..LeadingSpaces(s) + |r|]
    ensures forall i :: 0 <= i < LeadingSpaces(s) ==> IsSpace(s[i])
    ensures forall i :: LeadingSpaces(s) + |r| <= i < |s| ==> IsSpace(s[i])
  {
    TrimEnd(TrimStart(s))
  }

  lemma TrimEmptyIffAllSpace(s: string)
    ensures Trim(s) == [] <==> AllSpace(s)
  {
  }

  lemma TrimOfTrimmed(s: string)
    requires NoEdgeSpace(s)
    ensures Trim(s) == s
  {
  }

  /** A text that starts with a word whose ends are not white space keeps that word under `trim`. */
  lemma TrimKeepsHead(h: string, rest: string)
    requires h != [] && !IsSpace(h[0]) && !IsSpace(h[|h| - 1])
    ensures |Trim(h + rest)| >= |h| && Trim(h + rest)[..|h|] == h
  {
    var s := h + rest;
    assert s[0] == h[0] && s[|h| - 1] == h[|h| - 1];
    assert TrimStart(s) == s;
    var r := Trim(s);
    assert r == s[..|r|];
    assert r[..|h|] == s[..|h|];
  }

  /** A slice of a text without double spaces has none either. */
  lemma SliceNoDoubleSpace(s: string, a: nat, b: nat)
    requires NoDoubleSpace(s) && a <= b <= |s|
    ensures NoDoubleSpace(s[a..b])
  {
    forall i | 0 <= i < b - a - 1 ensures !(IsSpace(s[a..b][i]) && IsSpace(s[a..b][i + 1])) {
      assert s[a..b][i] == s[a + i] && s[a..b][i + 1] == s[a + i + 1];
    }
  }

  lemma SliceOnlyPlainSpaces(s: string, a: nat, b: nat)
    requires OnlyPlainSpaces(s) && a <= b <= |s|
    ensures OnlyPlainSpaces(s[a..b])
  {
    forall i | 0 <= i < b - a && IsSpace(s[a..b][i]) ensures s[a..b][i] == ' ' {
      assert s[a..b][i] == s[a + i];
    }
  }

  /** Prepending a character keeps a text free of double spaces unless it makes one with the first. */
  lemma ConsNoDoubleSpace(c: char, tail: string)
    requires NoDoubleSpace(tail)
    requires tail == [] || !(IsSpace(c) && IsSpace(tail[0]))
    ensures NoDoubleSpace([c] + tail)
  {
    var r := [c] + tail;
    forall i | 0 <= i < |r| - 1 ensures !(IsSpace(r[i]) && IsSpace(r[i + 1])) {
      if i > 0 {
        assert r[i] == tail[i - 1] && r[i + 1] == tail[i];
      }
    }
  }

  lemma ConsOnlyPlainSpaces(c: char, tail: string)
    requires OnlyPlainSpaces(tail)
    requires IsSpace(c) ==> c == ' '
    ensures OnlyPlainSpaces([c] + tail)
  {
    var r := [c] + tail;
    forall i | 0 <= i < |r| && IsSpace(r[i]) ensures r[i] == ' ' {
      if i > 0 {
        assert r[i] == tail[i - 1];
      }
    }
  }

  /** The text with every white-space character removed: what white-space edits leave alone. */
  function StripSpaces(s: string): (r: string)
    ensures |r| <= |s|
  {
    if s == [] then [] else (if IsSpace(s[0]) then [] else [s[0]]) + StripSpaces(s[1..])
  }

  lemma {:induction false} StripSpacesConcat(a: string, b: string)
    ensures StripSpaces(a + b) == StripSpaces(a) + StripSpaces(b)
    decreases |a|
  {
    if a != [] {
      var h := if IsSpace(a[0]) then [] else [a[0]];
      assert (a + b)[0] == a[0] && (a + b)[1..] == a[1..] + b;
      StripSpacesConcat(a[1..], b);
      calc {
        StripSpaces(a + b);
        h + StripSpaces(a[1..] + b);
        h + (StripSpaces(a[1..]) + StripSpaces(b));
        (h + StripSpaces(a[1..])) + StripSpaces(b);
      }
    } else {
      assert a + b == b;
    }
  }

  lemma {:induction false} StripSpacesAllSpace(s: string)
    requires AllSpace(s)
    ensures StripSpaces(s) == []
    decreases |s|
  {
    if s != [] {
      StripSpacesAllSpace(s[1..]);
    }
  }

  lemma StripSpacesSandwich(front: string, t: string, back: string)
    requires AllSpace(front) && AllSpace(back)
    ensures StripSpaces(front + (t + back)) == StripSpaces(t)
  {
    StripSpacesConcat(front, t + back);
    StripSpacesConcat(t, back);
    StripSpacesAllSpace(front);
    StripSpacesAllSpace(back);
    assert StripSpaces(t) + [] == StripSpaces(t);
  }

  lemma TrimFrontIsSpace(s: string)
    ensures AllSpace(s[..LeadingSpaces(s)])
  {
    var a := LeadingSpaces(s);
    forall i | 0 <= i < a ensures IsSpace(s[..a][i]) {
      assert s[..a][i] == s[i];
    }
  }

  lemma TrimBackIsSpace(s: string)
    ensures LeadingSpaces(s) + |Trim(s)| <= |s|
    ensures AllSpace(s[LeadingSpaces(s) + |Trim(s)|..])
  {
    var b := LeadingSpaces(s) + |Trim(s)|;
    forall i | 0 <= i < |s| - b ensures IsSpace(s[b..][i]) {
      assert s[b..][i] == s[b + i];
    }
  }

  /** A text is its trim between two white-space runs. */
  lemma TrimSplit(s: string) returns (front: string, back: string)
    ensures AllSpace(front) && AllSpace(back)
    ensures s == front + (Trim(s) + back)
  {
    TrimFrontIsSpace(s);
    TrimBackIsSpace(s);
    var a := LeadingSpaces(s);
    var b := a + |Trim(s)|;
    front, back := s[..a], s[b..];
    SliceSplit(s, a, b);
  }

  /** `trimStart` removes a white-space prefix and nothing else. */
  lemma TrimStartSplit(s: string) returns (gap: string)
    ensures AllSpace(gap) && s == gap + TrimStart(s)
  {
    TrimFrontIsSpace(s);
    gap := s[..LeadingSpaces(s)];
  }

  /** A text is the concatenation of its three slices at a and b. */
  lemma SliceSplit(s: string, a: nat, b: nat)
    requires a <= b <= |s|
    ensures s == s[..a] + (s[a..b] + s[b..])
  {
    assert s[a..] == s[a..b] + s[b..];
    assert s == s[..a] + s[a..];
  }

  lemma StripSpacesTrim(s: string)
    ensures StripSpaces(Trim(s)) == StripSpaces(s)
  {
    var front, back := TrimSplit(s);
    StripSpacesSandwich(front, Trim(s), back);
  }

  /** `c.repeat(n)` for a one-character string `c`. */
  function Repeat(c: char, n: nat): (r: string)
    ensures |r| == n
    ensures forall i :: 0 <= i < n ==> r[i] == c
  {
    if n == 0 then [] else [c] + Repeat(c, n - 1)
  }

  /** `Array.prototype.join(sep)`. */
  function Join(xs: seq<string>, sep: string): (r: string)
    ensures xs == [] ==> r == []
    ensures |xs| == 1 ==> r == xs[0]
    ensures |xs| > 1 ==> r == xs[0] + sep + Join(xs[1..], sep)
  {
    if xs == [] then [] else if |xs| == 1 then xs[0] else xs[0] + sep + Join(xs[1..], sep)
  }

  /** Pushing one more element onto a non-empty array adds one separator and the element. */
  lemma {:induction false} JoinSnoc(xs: seq<string>, x: string, sep: string)
    requires xs != []
    ensures Join(xs + [x], sep) == Join(xs, sep) + sep + x
    decreases |xs|
  {
    if |xs| > 1 {
      assert (xs + [x])[1..] == xs[1..] + [x];
      JoinSnoc(xs[1..], x, sep);
    }
  }

  // The keys whose flag is set, as `Object.entries(o).filter(...).map(([k]) => k)`
  // and a sequence of `if (...) list.push(key)` both produce them.

  /** The keys among the first n whose flag is set, in key order. */
  function KeysWhere(flags: seq<bool>, keys: seq<string>, n: nat): seq<string>
    requires n <= |flags| == |keys|
  {
    if n == 0 then [] else KeysWhere(flags, keys, n - 1) + (if flags[n - 1] then [keys[n - 1]] else [])
  }

  /**
   * The flagged keys among the first n are those at strictly increasing
   * positions `ranks`, and a position is among them exactly when its flag is set.
   */
  lemma {:induction false} KeysWhereRanks(flags: seq<bool>, keys: seq<string>, n: nat) returns (ranks: seq<nat>)
    requires n <= |flags| == |keys|
    ensures |ranks| == |KeysWhere(flags, keys, n)|
    ensures forall j :: 0 <= j < |ranks| ==> ranks[j] < n && KeysWhere(flags, keys, n)[j] == keys[ranks[j]]
    ensures forall j, k :: 0 <= j < k < |ranks| ==> ranks[j] < ranks[k]
    ensures forall i :: 0 <= i < n ==> (i in ranks <==> flags[i])
  {
    if n == 0 {
      ranks := [];
    } else {
      var before := KeysWhereRanks(flags, keys, n - 1);
      var prev := KeysWhere(flags, keys, n - 1);
      assert n - 1 !in before;
      if flags[n - 1] {
        ranks := before + [n - 1];
        var now := KeysWhere(flags, keys, n);
        assert now == prev + [keys[n - 1]];
        forall j | 0 <= j < |ranks| ensures ranks[j] < n && now[j] == keys[ranks[j]] {
          if j < |before| {
            assert ranks[j] == before[j] && now[j] == prev[j];
          }
        }
        forall j, k | 0 <= j < k < |ranks| ensures ranks[j] < ranks[k] {
          if k < |before| {
            assert ranks[j] == before[j] && ranks[k] == before[k];
          } else {
            assert ranks[j] == before[j];
          }
        }
        forall i | 0 <= i < n ensures i in ranks <==> flags[i] {
          assert i in ranks <==> i in before || i == n - 1;
        }
      } else {
        ranks := before;
        assert KeysWhere(flags, keys, n) == prev;
      }
    }
  }

  /** With distinct keys, a key is listed exactly when its flag is set. */
  lemma KeysWhereMembers(flags: seq<bool>, keys: seq<string>, n: nat)
    requires n <= |flags| == |keys|
    requires forall i, j :: 0 <= i < j < |keys| ==> keys[i] != keys[j]
    ensures forall i :: 0 <= i < n ==> (keys[i] in KeysWhere(flags, keys, n) <==> flags[i])
  {
    var ranks := KeysWhereRanks(flags, keys, n);
    var m := KeysWhere(flags, keys, n);
    forall i | 0 <= i < n ensures keys[i] in m <==> flags[i] {
      if flags[i] {
        var j :| 0 <= j < |ranks| && ranks[j] == i;
        assert m[j] == keys[i];
      }
      if keys[i] in m {
        var j :| 0 <= j < |m| && m[j] == keys[i];
        assert keys[ranks[j]] == keys[i];
        assert ranks[j] == i;
      }
    }
  }

  /** Lower-cases the ASCII letters and leaves every other character alone. */
  function ToLowerAscii(s: string): (r: string)
    ensures |r| == |s|
    ensures forall i :: 0 <= i < |s| ==> r[i] == (if 'A' <= s[i] <= 'Z' then (s[i] as int + 32) as char else s[i])
  {
    if s == [] then [] else
      [if 'A' <= s[0] <= 'Z' then (s[0] as int + 32) as char else s[0]] + ToLowerAscii(s[1..])
  }

  /** Lower-casing twice is lower-casing once. */
  lemma ToLowerAsciiIdempotent(s: string)
    ensures ToLowerAscii(ToLowerAscii(s)) == ToLowerAscii(s)
  {
    var once := ToLowerAscii(s);
    var twice := ToLowerAscii(once);
    forall i | 0 <= i < |s| ensures twice[i] == once[i] {
    }
  }
}
