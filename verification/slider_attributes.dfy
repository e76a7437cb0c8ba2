/**
 * The `data-reach-*` attribute map each slider part spreads onto its element,
 * and the `id:index` identifier helper.
 */
module SliderAttributes {
  import opened Wrappers

  /** `data-reach-<component><suffix>` */
  function AttrName(component: string, suffix: string): string
  {
    "data-reach-" + component + suffix
  }

  /** An attribute set to the empty string, or left `undefined` (and so not rendered). */
  function Flag(on: bool): Option<string>
  {
    if on then Some("") else None
  }

  /** The suffixes of the eight attributes, the bare component name first. */
  const Suffixes: seq<string> := ["", "-horizontal", "-vertical", "-disabled", "-highlight",
    "-highlight-horizontal", "-highlight-vertical", "-highlight-disabled"]

  /** The attribute object: every one of the eight names is a key, some mapped to `undefined`. */
  function MakeDataAttributes(component: string, isVertical: bool, highlight: bool, disabled: bool)
    : (attrs: map<string, Option<string>>)
  {
    map[
      AttrName(component, "") := Some(""),
      AttrName(component, "-horizontal") := Flag(!isVertical),
      AttrName(component, "-vertical") := Flag(isVertical),
      AttrName(component, "-disabled") := Flag(disabled),
      AttrName(component, "-highlight") := Flag(highlight),
      AttrName(component, "-highlight-horizontal") := Flag(highlight && !isVertical),
      AttrName(component, "-highlight-vertical") := Flag(highlight && isVertical),
      AttrName(component, "-highlight-disabled") := Flag(highlight && disabled)
    ]
  }

  /** The attributes that end up on the element: those not left `undefined`. */
  function Rendered(attrs: map<string, Option<string>>): set<string>
  {
    set k | k in attrs && attrs[k].Some?
  }

  /** Attribute names of one component differ exactly when their suffixes do. */
  lemma AttrNamesDiffer(component: string, s1: string, s2: string)
    ensures AttrName(component, s1) == AttrName(component, s2) ==> s1 == s2
  {
    var p := "data-reach-" + component;
    assert (p + s1)[|p|..] == s1;
    assert (p + s2)[|p|..] == s2;
  }

  /**
   * The rendered attributes: the bare name always; exactly one orientation;
   * `-disabled` iff disabled; each `-highlight*` variant only when highlighted.
   */
  lemma RenderedDataAttributes(component: string, isVertical: bool, highlight: bool, disabled: bool)
    ensures var r := Rendered(MakeDataAttributes(component, isVertical, highlight, disabled));
      && AttrName(component, "") in r
      && (AttrName(component, "-horizontal") in r <==> !isVertical)
      && (AttrName(component, "-vertical") in r <==> isVertical)
      && (AttrName(component, "-disabled") in r <==> disabled)
      && (AttrName(component, "-highlight") in r <==> highlight)
      && (AttrName(component, "-highlight-horizontal") in r <==> highlight && !isVertical)
      && (AttrName(component, "-highlight-vertical") in r <==> highlight && isVertical)
      && (AttrName(component, "-highlight-disabled") in r <==> highlight && disabled)
  {
    var attrs := MakeDataAttributes(component, isVertical, highlight, disabled);
    forall i, j | 0 <= i < j < |Suffixes|
      ensures AttrName(component, Suffixes[i]) != AttrName(component, Suffixes[j])
    {
      AttrNamesDiffer(component, Suffixes[i], Suffixes[j]);
    }
    // the only suffixes of equal length that the solver cannot tell apart by length
    assert "-vertical"[1] != "-disabled"[1];
    AttrNamesDiffer(component, "-vertical", "-disabled");
    assert "-highlight-vertical"[11] != "-highlight-disabled"[11];
    AttrNamesDiffer(component, "-highlight-vertical", "-highlight-disabled");
  }

  /** The decimal digits of a natural number, as `${index}` renders it. */
  function NatToString(n: nat): (s: string)
    ensures |s| > 0
    ensures forall i :: 0 <= i < |s| ==> '0' <= s[i] <= '9'
  {
    if n < 10 then [Digit(n)] else NatToString(n / 10) + [Digit(n % 10)]
  }

  function Digit(d: nat): char
    requires d < 10
  {
    (('0' as int) + d) as char
  }

  /** The number a string of decimal digits denotes. */
  function ParseNat(s: string): nat
    requires forall i :: 0 <= i < |s| ==> '0' <= s[i] <= '9'
  {
    if s == [] then 0 else ParseNat(s[..|s| - 1]) * 10 + ((s[|s| - 1] as int) - ('0' as int))
  }

  /** Reading back the rendered digits gives the number. */
  lemma {:induction false} ParseNatToString(n: nat)
    ensures ParseNat(NatToString(n)) == n
  {
    if n >= 10 {
      var s := NatToString(n);
      assert s[..|s| - 1] == NatToString(n / 10);
      ParseNatToString(n / 10);
    }
  }

  /** `${id}:${index}` */
  function MakeId(id: string, index: nat): string
  {
    id + ":" + NatToString(index)
  }

  /** The separator is the last ':' of an identifier. */
  lemma LastColon(id: string, index: nat)
    ensures var s := MakeId(id, index);
      s[|id|] == ':' && forall k :: |id| < k < |s| ==> s[k] != ':'
  {
    var s, d := MakeId(id, index), NatToString(index);
    assert forall k :: |id| < k < |s| ==> s[k] == d[k - |id| - 1];
  }

  /** Distinct (id, index) pairs give distinct identifiers, because digits contain no ':'. */
  lemma MakeIdInjective(id1: string, index1: nat, id2: string, index2: nat)
    requires MakeId(id1, index1) == MakeId(id2, index2)
    ensures id1 == id2 && index1 == index2
  {
    var s := MakeId(id1, index1);
    var d1, d2 := NatToString(index1), NatToString(index2);
    LastColon(id1, index1);
    LastColon(id2, index2);
    assert |id1| == |id2|;
    assert id1 == s[..|id1|] == id2;
    assert d1 == s[|id1| + 1..] == d2;
    ParseNatToString(index1);
    ParseNatToString(index2);
  }
}
