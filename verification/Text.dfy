/** Identities are strings, ordered by their code units with the shorter prefix first. */
module Text {
  import opened Sequences

  type Id = string

  predicate TextLess(a: string, b: string) {
    b != [] && (a == [] || a[0] < b[0] || (a[0] == b[0] && TextLess(a[1..], b[1..])))
  }

  predicate TextLe(a: string, b: string) {
    !TextLess(b, a)
  }

  lemma {:induction false} TextTrichotomy(a: string, b: string)
    ensures TextLess(a, b) ==> !TextLess(b, a)
    ensures a == b || TextLess(a, b) || TextLess(b, a)
    ensures TextLess(a, b) ==> a != b
  {
    if a != [] && b != [] && a[0] == b[0] {
      TextTrichotomy(a[1..], b[1..]);
      assert a == [a[0]] + a[1..] && b == [b[0]] + b[1..];
    }
  }

  lemma {:induction false} TextTransitive(a: string, b: string, c: string)
    requires TextLess(a, b) && TextLess(b, c)
    ensures TextLess(a, c)
  {
    if a != [] && b != [] && c != [] && a[0] == b[0] && b[0] == c[0] {
      TextTransitive(a[1..], b[1..], c[1..]);
    }
  }

  /** The order on strings is total and has no ties. */
  lemma TextOrder()
    ensures TotalPreorder(TextLe) && Antisymmetric(TextLe)
  {
    forall a, b ensures TextLe(a, b) || TextLe(b, a) { TextTrichotomy(a, b); }
    forall a, b | TextLe(a, b) && TextLe(b, a) ensures a == b { TextTrichotomy(a, b); }
    forall a, b, c | TextLe(a, b) && TextLe(b, c) ensures TextLe(a, c) {
      TextTrichotomy(a, b);
      TextTrichotomy(b, c);
      TextTrichotomy(a, c);
      if TextLess(c, a) && a != b && b != c { TextTransitive(a, b, c); }
    }
  }

  /** What it means: at the first place where they differ the smaller code unit decides, and a proper prefix is less. */
  ghost predicate TextBefore(a: string, b: string) {
    exists k :: 0 <= k <= |a| && k < |b| && a[..k] == b[..k] && (k == |a| || a[k] < b[k])
  }

  lemma {:induction false} TextLessMeans(a: string, b: string)
    ensures TextLess(a, b) <==> TextBefore(a, b)
  {
    if a != [] && b != [] && a[0] == b[0] {
      TextLessMeans(a[1..], b[1..]);
      BeforeByTail(a, b);
    } else if TextLess(a, b) {
      assert a[..0] == b[..0];
    }
  }

  lemma BeforeByTail(a: string, b: string)
    requires a != [] && b != [] && a[0] == b[0]
    ensures TextBefore(a, b) <==> TextBefore(a[1..], b[1..])
  {
    if TextBefore(a, b) {
      var k :| 0 <= k <= |a| && k < |b| && a[..k] == b[..k] && (k == |a| || a[k] < b[k]);
      assert a[1..][..k - 1] == a[..k][1..] && b[1..][..k - 1] == b[..k][1..];
    }
    if TextBefore(a[1..], b[1..]) {
      var k :| 0 <= k < |a| && k < |b| - 1 && a[1..][..k] == b[1..][..k] && (k == |a| - 1 || a[1..][k] < b[1..][k]);
      assert a[..k + 1] == [a[0]] + a[1..][..k] && b[..k + 1] == [b[0]] + b[1..][..k];
    }
  }
}
