/** A text standing at a position of a character sequence. */
module Text {

  ghost predicate At(s: seq<char>, p: nat, text: string) {
    p + |text| <= |s| && forall i :: 0 <= i < |text| ==> s[p + i] == text[i]
  }

  lemma AtSplit(s: seq<char>, p: nat, a: string, b: string)
    requires At(s, p, a + b)
    ensures At(s, p, a) && At(s, p + |a|, b)
  {
    forall i | 0 <= i < |a| ensures s[p + i] == a[i] {
      assert (a + b)[i] == a[i];
    }
    forall i | 0 <= i < |b| ensures s[p + |a| + i] == b[i] {
      assert (a + b)[|a| + i] == b[i];
    }
  }

  lemma AtChar(s: seq<char>, p: nat, text: string, i: nat)
    requires At(s, p, text) && i < |text|
    ensures s[p + i] == text[i]
  {
  }

  lemma AtSlice(s: seq<char>, p: nat, text: string)
    requires At(s, p, text)
    ensures s[p..p + |text|] == text
  {
  }
}
