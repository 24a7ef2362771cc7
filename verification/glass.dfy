// app/utils/text/glass.py: the brackets around a "glassy" button label.
module Glass {

  const GLASS_LEFT := '\U{300C}'
  const GLASS_RIGHT := '\U{300D}'

  /** The characters Python's str.strip removes. */
  predicate IsSpace(c: char) {
    || '\t' <= c <= '\r'
    || '\U{1C}' <= c <= ' '
    || c in {'\U{85}', '\U{A0}', '\U{1680}', '\U{2028}', '\U{2029}', '\U{202F}', '\U{205F}', '\U{3000}'}
    || '\U{2000}' <= c <= '\U{200A}'
  }

  predicate Trimmed(s: string) {
    s == [] || (!IsSpace(s[0]) && !IsSpace(s[|s| - 1]))
  }

  /** str.strip: the longest part of `s` with no space at either end. */
  function Strip(s: string): (r: string)
    ensures Trimmed(r) && |r| <= |s|
    ensures Trimmed(s) <==> r == s
    ensures r == [] <==> forall i :: 0 <= i < |s| ==> IsSpace(s[i])
  {
    if s == [] then s
    else if IsSpace(s[0]) then Strip(s[1..])
    else if IsSpace(s[|s| - 1]) then Strip(s[..|s| - 1])
    else s
  }

  /** The characters, one by one. */
  lemma SpacesAre(c: char)
    ensures IsSpace(c) <==> c in {
      '\U{9}', '\U{A}', '\U{B}', '\U{C}', '\U{D}', '\U{1C}', '\U{1D}', '\U{1E}', '\U{1F}', '\U{20}', '\U{85}', '\U{A0}',
      '\U{1680}', '\U{2000}', '\U{2001}', '\U{2002}', '\U{2003}', '\U{2004}', '\U{2005}', '\U{2006}', '\U{2007}',
      '\U{2008}', '\U{2009}', '\U{200A}', '\U{2028}', '\U{2029}', '\U{202F}', '\U{205F}', '\U{3000}'}
  {
  }

  /** All that stands before and after the middle of `s` is space. */
  ghost predicate SpaceAround(s: string, before: nat, after: nat) {
    && before <= after <= |s|
    && (forall i :: 0 <= i < before ==> IsSpace(s[i]))
    && (forall i :: after <= i < |s| ==> IsSpace(s[i]))
  }

  lemma FrontComesOff(s: string, before: nat, after: nat)
    requires s != [] && IsSpace(s[0]) && SpaceAround(s[1..], before, after) && Strip(s[1..]) == s[1..][before..after]
    ensures SpaceAround(s, before + 1, after + 1) && Strip(s) == s[before + 1..after + 1]
  {
    assert forall i :: 1 <= i < |s| ==> s[i] == s[1..][i - 1];
  }

  lemma EndComesOff(s: string, before: nat, after: nat)
    requires s != [] && !IsSpace(s[0]) && IsSpace(s[|s| - 1])
    requires SpaceAround(s[..|s| - 1], before, after) && Strip(s[..|s| - 1]) == s[..|s| - 1][before..after]
    ensures SpaceAround(s, before, after) && Strip(s) == s[before..after]
  {
    var rest := s[..|s| - 1];
    forall i | after <= i < |s| ensures IsSpace(s[i]) {
      assert i < |rest| ==> s[i] == rest[i];
    }
    assert s[before..after] == rest[before..after];
  }

  /** Stripping takes off spaces only, from the two ends only. */
  lemma {:induction false} StripTakesEnds(s: string) returns (before: nat, after: nat)
    ensures before <= after <= |s| && Strip(s) == s[before..after]
    ensures forall i :: 0 <= i < before || after <= i < |s| ==> IsSpace(s[i])
    decreases s
  {
    if s == [] || (!IsSpace(s[0]) && !IsSpace(s[|s| - 1])) {
      return 0, |s|;
    }
    if IsSpace(s[0]) {
      before, after := StripTakesEnds(s[1..]);
      FrontComesOff(s, before, after);
      before, after := before + 1, after + 1;
    } else {
      before, after := StripTakesEnds(s[..|s| - 1]);
      EndComesOff(s, before, after);
    }
    assert SpaceAround(s, before, after);
  }

  lemma StripBefore(c: char, s: string)
    requires IsSpace(c) && Trimmed(s)
    ensures Strip([c] + s) == s
  {
  }

  predicate Bracketed(t: string) {
    |t| > 0 && t[0] == GLASS_LEFT && t[|t| - 1] == GLASS_RIGHT
  }

  function GlassText(caption: string): (r: string)
    ensures Bracketed(r) && Trimmed(r)
  {
    var inner := Strip(caption);
    if inner == [] then [GLASS_LEFT, GLASS_RIGHT] else [GLASS_LEFT, ' '] + inner + [GLASS_RIGHT]
  }

  function UnglassText(caption: string): (r: string)
    ensures Trimmed(r) && |r| <= |caption|
  {
    var text := Strip(caption);
    if Bracketed(text) then Strip(text[1..|text| - 1]) else text
  }

  /** The label between its brackets. */
  lemma GlassTextIs(caption: string)
    ensures Strip(caption) == "" ==> GlassText(caption) == ['\U{300C}', '\U{300D}']
    ensures Strip(caption) != "" ==> GlassText(caption) == ['\U{300C}', ' '] + Strip(caption) + ['\U{300D}']
  {
  }

  /** A label that is one pair of brackets around something loses them and the spaces they leave; any other
      label loses its outer spaces only. */
  lemma UnglassTextIs(caption: string, inner: string)
    ensures Strip(caption) == ['\U{300C}'] + inner + ['\U{300D}'] ==> UnglassText(caption) == Strip(inner)
    ensures var t := Strip(caption);
      t == "" || t[0] != '\U{300C}' || t[|t| - 1] != '\U{300D}' ==> UnglassText(caption) == t
  {
    var t := ['\U{300C}'] + inner + ['\U{300D}'];
    assert t[1..|t| - 1] == inner;
  }

  /** Taking the brackets off again gives the label that was wrapped, less its outer spaces. */
  lemma UnglassUndoesGlass(caption: string)
    ensures UnglassText(GlassText(caption)) == Strip(caption)
  {
    var inner := Strip(caption);
    var glass := GlassText(caption);
    if inner == [] {
      assert glass[1..|glass| - 1] == [];
    } else {
      assert glass[1..|glass| - 1] == [' '] + inner;
      StripBefore(' ', inner);
    }
  }

  /** Taking brackets off twice is the same as once exactly when the once-plain label has none left. */
  lemma UnglassTwice(caption: string)
    ensures UnglassText(UnglassText(caption)) == UnglassText(caption) <==> !Bracketed(UnglassText(caption))
  {
  }

  /** Nested brackets come off one pair at a time. */
  lemma NestedBracketsComeOffOneAtATime()
    ensures exists caption :: UnglassText(caption) != UnglassText(UnglassText(caption))
  {
    var inner := [GLASS_LEFT, 'a', GLASS_RIGHT];
    var caption := [GLASS_LEFT] + inner + [GLASS_RIGHT];
    assert caption[1..|caption| - 1] == inner;
    assert UnglassText(caption) == inner;
    UnglassTwice(caption);
  }
}
