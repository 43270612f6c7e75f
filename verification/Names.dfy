/** Strings in the order Rust sorts them, and the sorted, duplicate-free lists a `BTreeSet` or the
    keys of a `BTreeMap` iterate as. Byte order of UTF-8 is code-point order.
 */
module Names {

  predicate Less(a: string, b: string) {
    if b == "" then false
    else if a == "" then true
    else a[0] < b[0] || (a[0] == b[0] && Less(a[1..], b[1..]))
  }

  lemma LessTransitive(a: string, b: string, c: string)
    requires Less(a, b) && Less(b, c)
    ensures Less(a, c)
  {
    if a != "" && a[0] == b[0] == c[0] {
      LessTransitive(a[1..], b[1..], c[1..]);
    }
  }

  lemma LessTrichotomy(a: string, b: string)
    ensures Less(a, b) || a == b || Less(b, a)
    ensures !(Less(a, b) && Less(b, a))
    ensures Less(a, b) ==> a != b
  {
    if a != "" && b != "" {
      LessTrichotomy(a[1..], b[1..]);
      if a[0] == b[0] && a[1..] == b[1..] {
        assert a == [a[0]] + a[1..] == [b[0]] + b[1..] == b;
      }
    }
  }

  ghost predicate Ascending(s: seq<string>) {
    forall i, j :: 0 <= i < j < |s| ==> Less(s[i], s[j])
  }

  ghost function Elements(s: seq<string>): set<string> {
    set x | x in s
  }

  lemma Prepend(x: string, s: seq<string>)
    requires Ascending(s) && (s != [] ==> Less(x, s[0]))
    ensures Ascending([x] + s)
    ensures Elements([x] + s) == {x} + Elements(s)
  {
    forall j | 0 <= j < |s|
      ensures Less(x, s[j])
    {
      if j > 0 { LessTransitive(x, s[0], s[j]); }
    }
  }

  /** Insertion into a `BTreeSet`, by its sorted list. */
  function Insert(s: seq<string>, x: string): (r: seq<string>)
    requires Ascending(s)
    ensures Ascending(r)
    ensures Elements(r) == Elements(s) + {x}
    ensures r != [] && (r[0] == x || (s != [] && r[0] == s[0]))
  {
    if s == [] then [x]
    else
      LessTrichotomy(x, s[0]);
      if x == s[0] then assert x in s; s
      else if Less(x, s[0]) then Prepend(x, s); [x] + s
      else
        var rest := Insert(s[1..], x);
        assert s == [s[0]] + s[1..];
        Prepend(s[0], s[1..]);
        assert s[1..] != [] ==> Less(s[0], s[1..][0]);
        Prepend(s[0], rest);
        [s[0]] + rest
  }

  lemma InsertMembers(s: seq<string>, x: string)
    requires Ascending(s)
    ensures forall y :: y in Insert(s, x) <==> y in s || y == x
  {
    forall y
      ensures y in Insert(s, x) <==> y in s || y == x
    {
      assert y in Insert(s, x) <==> y in Elements(Insert(s, x));
    }
  }

  /** A sorted list is determined by its elements. */
  lemma AscendingUnique(s: seq<string>, t: seq<string>)
    requires Ascending(s) && Ascending(t) && Elements(s) == Elements(t)
    ensures s == t
  {
    assert t == [] || t[0] in Elements(t);
    if s != [] {
      assert s[0] in Elements(t);
      assert t != [] && t[0] in Elements(s);
      HeadsEqual(s, t);
      TailElements(s);
      TailElements(t);
      AscendingUnique(s[1..], t[1..]);
      assert s == [s[0]] + s[1..] && t == [t[0]] + t[1..];
    }
  }

  lemma HeadsEqual(s: seq<string>, t: seq<string>)
    requires Ascending(s) && Ascending(t) && s != [] && t != []
    requires s[0] in t && t[0] in s
    ensures s[0] == t[0]
  {
    var i :| 0 <= i < |t| && t[i] == s[0];
    var j :| 0 <= j < |s| && s[j] == t[0];
    LessTrichotomy(s[0], t[0]);
  }

  lemma TailElements(s: seq<string>)
    requires Ascending(s) && s != []
    ensures Elements(s[1..]) == Elements(s) - {s[0]}
  {
    forall j | 1 <= j < |s|
      ensures s[j] != s[0]
    {
      LessTrichotomy(s[0], s[j]);
    }
    assert forall x :: x in s[1..] ==> exists j :: 1 <= j < |s| && s[j] == x;
    assert forall x :: x in s ==> x == s[0] || x in s[1..];
  }

  /** Unicode `White_Space`, as `char::is_whitespace`. */
  predicate IsWhitespace(c: char) {
    var v := c as int;
    || 0x09 <= v <= 0x0D || v == 0x20 || v == 0x85 || v == 0xA0 || v == 0x1680
    || 0x2000 <= v <= 0x200A || v == 0x2028 || v == 0x2029 || v == 0x202F || v == 0x205F || v == 0x3000
  }

  /** `s.trim().is_empty()`. */
  predicate IsBlank(s: string) {
    forall c :: c in s ==> IsWhitespace(c)
  }
}
