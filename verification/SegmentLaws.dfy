/**
 What a segment does to a text, said on texts: the laws by which bridge/internal/configdir/lexical.go resolves
 names, ".", "..", and doubled separators. Together they determine what every text resolves to.
 */
module SegmentLaws {
  import opened Segments

  lemma OneMore(f: Flavour, d: string, c: char, seg: string, k: bool)
    requires f.IsSep(c) && SepFree(f, seg)
    ensures Stack(f, d + [c] + seg, k) == Step(Stack(f, d, k), seg, k)
  {
    StackConcat(f, d, c, seg, k);
    SplitPlain(f, "", seg);
    assert "" + seg == seg;
    var below := Stack(f, d, k);
    assert Resolve(below, [seg], k) == Resolve(Step(below, seg, k), [seg][1..], k);
  }

  /** What follows a separator only depends on what the text before it resolves to. */
  lemma SameBefore(f: Flavour, a: string, b: string, c: char, x: string, k: bool)
    requires f.IsSep(c) && Stack(f, a, k) == Stack(f, b, k)
    ensures Stack(f, a + [c] + x, k) == Stack(f, b + [c] + x, k)
  {
    StackConcat(f, a, c, x, k);
    StackConcat(f, b, c, x, k);
  }

  /** A name goes on top of what stands before it, and ".." behind it takes that one name back, no more. */
  lemma DotDotTakesOneBack(f: Flavour, d: string, c: char, name: string, x: string, k: bool)
    requires f.IsSep(c) && SepFree(f, name) && name !in {"", ".", ".."}
    ensures Stack(f, d + [c] + name, k) == Stack(f, d, k) + [name]
    ensures Stack(f, d + [c] + name + [c] + "..", k) == Stack(f, d, k)
    ensures Stack(f, d + [c] + name + [c] + ".." + [c] + x, k) == Stack(f, d + [c] + x, k)
  {
    OneMore(f, d, c, name, k);
    OneMore(f, d + [c] + name, c, "..", k);
    assert Front(Stack(f, d, k) + [name]) == Stack(f, d, k);
    SameBefore(f, d + [c] + name + [c] + "..", d, c, x, k);
  }

  /** "." and an empty segment change nothing, wherever they stand. */
  lemma DotsAndEmptyVanish(f: Flavour, d: string, c: char, x: string, k: bool)
    requires f.IsSep(c)
    ensures Stack(f, d + [c] + "." + [c] + x, k) == Stack(f, d + [c] + x, k) == Stack(f, d + [c] + [c] + x, k)
    ensures Stack(f, d + [c] + ".", k) == Stack(f, d, k) == Stack(f, d + [c], k)
  {
    OneMore(f, d, c, ".", k);
    OneMore(f, d, c, "", k);
    assert d + [c] + "" == d + [c];
    SameBefore(f, d + [c] + ".", d, c, x, k);
    SameBefore(f, d + [c], d, c, x, k);
  }

  lemma OnlySegment(f: Flavour, seg: string, k: bool)
    requires SepFree(f, seg)
    ensures Stack(f, seg, k) == Step([], seg, k)
  {
    SplitPlain(f, "", seg);
    assert "" + seg == seg;
    assert Resolve([], [seg], k) == Resolve(Step([], seg, k), [seg][1..], k);
  }

  /** A ".." at a root is dropped. */
  lemma RootHasNoParent(f: Flavour, c: char, x: string)
    requires f.IsSep(c)
    ensures Stack(f, "..", false) == [] && Stack(f, "", false) == []
    ensures Stack(f, [c] + ".." + [c] + x, false) == Stack(f, [c] + x, false)
    ensures Stack(f, ".." + [c] + x, false) == Stack(f, x, false)
  {
    OnlySegment(f, "", false);
    OnlySegment(f, "..", false);
    OneMore(f, "", c, "..", false);
    assert "" + [c] + ".." == [c] + ".." && "" + [c] + x == [c] + x;
    SameBefore(f, [c] + "..", "", c, x, false);
    StackConcat(f, "..", c, x, false);
  }

  lemma {:induction false} AboveStays(stack: seq<string>, segs: seq<string>)
    ensures Resolve([".."] + stack, segs, true) == [".."] + Resolve(stack, segs, true)
    decreases |segs|
  {
    if segs != [] {
      var seg := segs[0];
      assert Step([".."] + stack, seg, true) == [".."] + Step(stack, seg, true) by {
        if stack == [] {
          assert [".."] + stack == [".."];
        } else {
          assert Front([".."] + stack) == [".."] + Front(stack);
        }
      }
      AboveStays(Step(stack, seg, true), segs[1..]);
    }
  }

  /** In a relative text a ".." with nothing to take back stays, in front of whatever the rest resolves to. */
  lemma EscapeIsKept(f: Flavour, c: char, x: string)
    requires f.IsSep(c)
    ensures Stack(f, "..", true) == [".."]
    ensures Stack(f, ".." + [c] + x, true) == [".."] + Stack(f, x, true)
  {
    OnlySegment(f, "..", true);
    StackConcat(f, "..", c, x, true);
    AboveStays([], Split(f, x));
    assert [".."] + [] == [".."];
  }
}
