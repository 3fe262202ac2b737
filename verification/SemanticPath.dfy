/** Dotted state paths, and the text test that decides whether a change at one path
    affects a dependency on another. */
module SemanticPath {

  /** The segments between the dots. */
  function Segments(p: string): (r: seq<string>)
    ensures r != []
  {
    if p == [] then [""]
    else if p[0] == '.' then [""] + Segments(p[1..])
    else var rest := Segments(p[1..]); [[p[0]] + rest[0]] + rest[1..]
  }

  function Join(segments: seq<string>): string
    requires segments != []
  {
    if |segments| == 1 then segments[0] else segments[0] + "." + Join(segments[1..])
  }

  predicate Lower(c: char) { 'a' <= c <= 'z' }

  predicate Alphanumeric(c: char) { Lower(c) || 'A' <= c <= 'Z' || '0' <= c <= '9' }

  /** One identifier of a semantic path, such as `departureDate`. */
  predicate Segment(s: string) {
    s != [] && Lower(s[0]) && forall i :: 0 <= i < |s| ==> Alphanumeric(s[i])
  }

  /** What the path pattern accepts. */
  predicate Valid(p: string) {
    forall i :: 0 <= i < |Segments(p)| ==> Segment(Segments(p)[i])
  }

  predicate StartsWith(s: string, prefix: string) {
    prefix <= s
  }

  /** The test made on the two texts. */
  predicate Affects(path: string, dependency: string) {
    path == dependency || StartsWith(path, dependency + ".") || StartsWith(dependency, path + ".")
  }

  lemma {:induction false} SegmentsOfJoin(a: string, b: string)
    ensures Segments(a + "." + b) == Segments(a) + Segments(b)
  {
    if a == [] {
      assert a + "." + b == "." + b;
    } else {
      assert (a + "." + b)[1..] == a[1..] + "." + b;
      SegmentsOfJoin(a[1..], b);
    }
  }

  lemma {:induction false} JoinWithHead(c: char, segments: seq<string>)
    requires segments != []
    ensures Join([[c] + segments[0]] + segments[1..]) == [c] + Join(segments)
  {
    var s := [[c] + segments[0]] + segments[1..];
    assert s[1..] == segments[1..];
    if |segments| > 1 {
      assert Join(s) == ([c] + segments[0]) + "." + Join(segments[1..]);
    }
  }

  lemma {:induction false} JoinOfSegments(p: string)
    ensures Join(Segments(p)) == p
  {
    if p != [] {
      JoinOfSegments(p[1..]);
      var rest := Segments(p[1..]);
      if p[0] == '.' {
        assert Segments(p)[1..] == rest;
        assert "" + "." + p[1..] == p;
      } else {
        JoinWithHead(p[0], rest);
      }
    }
  }

  lemma {:induction false} JoinConcat(a: seq<string>, b: seq<string>)
    requires a != [] && b != []
    ensures Join(a + b) == Join(a) + "." + Join(b)
  {
    assert (a + b)[1..] == a[1..] + b;
    if |a| > 1 {
      JoinConcat(a[1..], b);
      assert Join(a + b) == a[0] + "." + (Join(a[1..]) + "." + Join(b));
    } else {
      assert a[1..] + b == b;
    }
  }

  /** A text starts with `a` and a dot exactly when its segments properly extend those of `a`. */
  lemma {:induction false} DottedPrefix(a: string, b: string)
    ensures StartsWith(b, a + ".") <==> Segments(a) < Segments(b)
  {
    if StartsWith(b, a + ".") {
      var rest := b[|a| + 1..];
      assert b == a + "." + rest;
      SegmentsOfJoin(a, rest);
    }
    if Segments(a) < Segments(b) {
      var rest := Segments(b)[|Segments(a)|..];
      assert Segments(b) == Segments(a) + rest;
      JoinConcat(Segments(a), rest);
      JoinOfSegments(a);
      JoinOfSegments(b);
    }
  }

  /** The text test holds exactly when one path's segments are a prefix of the other's. */
  lemma {:induction false} AffectsIffSegmentPrefix(path: string, dependency: string)
    ensures Affects(path, dependency)
            <==> Segments(path) <= Segments(dependency) || Segments(dependency) <= Segments(path)
  {
    DottedPrefix(path, dependency);
    DottedPrefix(dependency, path);
    JoinOfSegments(path);
    JoinOfSegments(dependency);
    assert Segments(path) <= Segments(dependency) <==>
           Segments(path) < Segments(dependency) || Segments(path) == Segments(dependency);
    assert Segments(dependency) <= Segments(path) <==>
           Segments(dependency) < Segments(path) || Segments(path) == Segments(dependency);
  }

  /** A name without dots is a path of one segment. */
  lemma {:induction false} SegmentIsValid(s: string)
    requires Segment(s)
    ensures Valid(s)
  {
    UndottedIsOneSegment(s);
  }

  lemma {:induction false} UndottedIsOneSegment(s: string)
    requires forall i :: 0 <= i < |s| ==> s[i] != '.'
    ensures Segments(s) == [s]
  {
    if s != [] {
      UndottedIsOneSegment(s[1..]);
      assert s == [s[0]] + s[1..];
    }
  }

  /** Letters, digits and dots, with a lowercase letter at the start and behind every dot. */
  predicate ByCharacters(p: string) {
    && p != [] && 'a' <= p[0] <= 'z'
    && (forall i :: 0 <= i < |p| ==>
          'a' <= p[i] <= 'z' || 'A' <= p[i] <= 'Z' || '0' <= p[i] <= '9' || p[i] == '.')
    && (forall i :: 0 <= i < |p| && p[i] == '.' ==> i + 1 < |p| && 'a' <= p[i + 1] <= 'z')
  }

  lemma {:induction false} CutByCharacters(p: string, a: string, b: string)
    requires p == a + "." + b && forall i :: 0 <= i < |a| ==> a[i] != '.'
    ensures ByCharacters(p) <==> Segment(a) && ByCharacters(b)
  {
    assert forall i :: 0 <= i < |a| ==> p[i] == a[i];
    assert p[|a|] == '.';
    assert forall i :: 0 <= i < |b| ==> p[|a| + 1 + i] == b[i];
    assert forall i :: |a| < i < |p| ==> p[i] == b[i - |a| - 1];
    if ByCharacters(p) {
      assert a != [] && p[|a| + 1] == b[0];
    }
  }

  /** The path pattern says the same, character by character. */
  lemma {:induction false} ValidByCharacters(p: string)
    ensures Valid(p) <==> ByCharacters(p)
    decreases |p|
  {
    if j :| 0 <= j < |p| && p[j] == '.' && forall i :: 0 <= i < j ==> p[i] != '.' {
      var a, b := p[..j], p[j + 1..];
      assert p == a + "." + b;
      SegmentsOfJoin(a, b);
      UndottedIsOneSegment(a);
      ValidByCharacters(b);
      CutByCharacters(p, a, b);
      hide Segments, Valid, ByCharacters, Segment;
      HeadAndRest(p, a, b);
    } else {
      NoDot(p);
      UndottedIsOneSegment(p);
      OneSegmentByCharacters(p);
    }
  }

  lemma {:induction false} OneSegmentByCharacters(p: string)
    requires Segments(p) == [p] && forall i :: 0 <= i < |p| ==> p[i] != '.'
    ensures Valid(p) <==> ByCharacters(p)
  {
    assert Segments(p)[0] == p;
    hide Segments;
  }

  lemma {:induction false} HeadAndRest(p: string, a: string, b: string)
    requires Segments(p) == [a] + Segments(b)
    ensures Valid(p) <==> Segment(a) && Valid(b)
  {
    hide Segments, Segment;
    assert forall i :: 0 <= i < |Segments(b)| ==> Segments(p)[i + 1] == Segments(b)[i];
    assert Segments(p)[0] == a;
    assert forall i :: 0 < i < |Segments(p)| ==> Segments(p)[i] == Segments(b)[i - 1];
  }

  /** Without a first dot there is none. */
  lemma {:induction false} NoDot(p: string)
    requires forall j :: 0 <= j < |p| && p[j] == '.' ==> exists i :: 0 <= i < j && p[i] == '.'
    ensures forall j :: 0 <= j < |p| ==> p[j] != '.'
  {
    if j :| 0 <= j < |p| && p[j] == '.' {
      NoDotUpTo(p, j);
    }
  }

  lemma {:induction false} NoDotUpTo(p: string, j: nat)
    requires forall k :: 0 <= k < |p| && p[k] == '.' ==> exists i :: 0 <= i < k && p[i] == '.'
    requires j < |p|
    ensures p[j] != '.'
    decreases j
  {
    if p[j] == '.' {
      var i :| 0 <= i < j && p[i] == '.';
      NoDotUpTo(p, i);
    }
  }
}
