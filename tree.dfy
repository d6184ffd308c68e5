/** The parsed XML element tree and the ElementTree queries app.py uses on
    it: `find`, `findtext`, `findall(".//tag")` and the three-step path
    `.//listOfSkillsEx/extrnalObj/name`. Attributes and tails are not read by
    the pipeline and are not part of the model. */
module Tree {
  import opened Strings

  /** An element: its tag, its text (None when the element has none) and its
      children in document order. */
  datatype Element = Element(tag: string, text: Option<string>, children: seq<Element>)

  /** `e.iter()` without `e` itself: every element below `e`, in document
      order (pre-order). */
  function Descendants(e: Element): seq<Element>
    decreases e
  {
    Forest(e.children)
  }

  /** The elements of a sequence of sibling trees, each followed by its own
      descendants. */
  function Forest(es: seq<Element>): seq<Element>
    decreases es
  {
    if es == [] then [] else [es[0]] + Descendants(es[0]) + Forest(es[1..])
  }

  /** Every direct child of an element is one of its descendants. */
  lemma ChildIsDescendant(e: Element)
    ensures forall c :: c in e.children ==> c in Descendants(e)
  {
    ForestHoldsTrees(e.children);
  }

  lemma {:induction false} ForestHoldsTrees(es: seq<Element>)
    ensures forall c :: c in es ==> c in Forest(es)
    decreases |es|
  {
    if es != [] {
      ForestHoldsTrees(es[1..]);
      assert forall c :: c in es ==> c == es[0] || c in es[1..];
    }
  }

  /** Everything in a forest is one of its trees or lies below one. */
  lemma {:induction false} ForestBelow(es: seq<Element>, x: Element)
    requires x in Forest(es)
    ensures exists c :: c in es && (x == c || x in Descendants(c))
    decreases es
  {
    if x != es[0] && x !in Descendants(es[0]) {
      ForestBelow(es[1..], x);
      var c :| c in es[1..] && (x == c || x in Descendants(c));
      assert c in es;
    }
  }

  /** The descendants lie strictly below the element: it is never among its
      own descendants, so `.//` never yields the context element itself. */
  lemma {:induction false} NotOwnDescendant(e: Element, x: Element)
    requires x in Descendants(e)
    ensures x != e
    decreases e
  {
    ForestBelow(e.children, x);
    var c :| c in e.children && (x == c || x in Descendants(c));
    if x != c {
      NotOwnDescendant(c, x);
      if x == e {
        ChildIsDescendant(x);
        DescendantsTransitive(c, x, c);
        NotOwnDescendant(c, c);
      }
    }
  }

  /** Being below an element is transitive: the descendants of a descendant
      are descendants. */
  lemma {:induction false} DescendantsTransitive(e: Element, d: Element, x: Element)
    requires d in Descendants(e) && x in Descendants(d)
    ensures x in Descendants(e)
    decreases e
  {
    ForestTransitive(e.children, d, x);
  }

  lemma {:induction false} ForestTransitive(es: seq<Element>, d: Element, x: Element)
    requires d in Forest(es) && x in Descendants(d)
    ensures x in Forest(es)
    decreases es
  {
    if es != [] {
      if d == es[0] {
      } else if d in Descendants(es[0]) {
        DescendantsTransitive(es[0], d, x);
      } else {
        ForestTransitive(es[1..], d, x);
      }
    }
  }

  /** The elements of `es` whose tag is `tag`, in order. */
  function Tagged(es: seq<Element>, tag: string): (r: seq<Element>)
    ensures |r| <= |es|
    ensures forall x :: x in r <==> x in es && x.tag == tag
  {
    if es == [] then []
    else (if es[0].tag == tag then [es[0]] else []) + Tagged(es[1..], tag)
  }

  /** `e.findall(".//" + tag)`: the descendants of `e` (not `e` itself) with
      that tag, in document order. */
  function FindAll(e: Element, tag: string): (r: seq<Element>)
    ensures forall x :: x in r <==> x in Descendants(e) && x.tag == tag
    ensures e !in r
  {
    assert e !in Descendants(e) by {
      if e in Descendants(e) { NotOwnDescendant(e, e); }
    }
    Tagged(Descendants(e), tag)
  }

  /** `e.find(tag)`: the first direct child with that tag. */
  function Find(e: Element, tag: string): (r: Option<Element>)
    ensures r.Some? ==> r.value in e.children && r.value.tag == tag
    ensures r.None? <==> forall c :: c in e.children ==> c.tag != tag
    ensures r.Some? ==> exists i :: 0 <= i < |e.children| && e.children[i] == r.value
                          && forall k :: 0 <= k < i ==> e.children[k].tag != tag
  {
    var t := Tagged(e.children, tag);
    if t == [] then None
    else
      assert t == Tagged(e.children, tag);
      FirstTagged(e.children, tag);
      Some(t[0])
  }

  lemma {:induction false} FirstTagged(es: seq<Element>, tag: string)
    requires Tagged(es, tag) != []
    ensures exists i :: 0 <= i < |es| && es[i] == Tagged(es, tag)[0]
                        && forall k :: 0 <= k < i ==> es[k].tag != tag
  {
    if es[0].tag != tag {
      FirstTagged(es[1..], tag);
      var i :| 0 <= i < |es[1..]| && es[1..][i] == Tagged(es[1..], tag)[0]
               && forall k :: 0 <= k < i ==> es[1..][k].tag != tag;
      assert es[i + 1] == Tagged(es, tag)[0];
      assert forall k :: 0 <= k < i + 1 ==> es[k].tag != tag by {
        forall k | 0 <= k < i + 1 ensures es[k].tag != tag {
          if k > 0 { assert es[k] == es[1..][k - 1]; }
        }
      }
    } else {
      assert es[0] == Tagged(es, tag)[0];
    }
  }

  /** `e.findtext(tag, default="")`: the text of the first child with that
      tag; "" when there is no such child or it has no text. */
  function FindText(e: Element, tag: string): (r: string)
    ensures Find(e, tag).None? ==> r == ""
    ensures Find(e, tag).Some? && Find(e, tag).value.text.Some? ==> r == Find(e, tag).value.text.value
    ensures Find(e, tag).Some? && Find(e, tag).value.text.None? ==> r == ""
  {
    match Find(e, tag)
    case None => ""
    case Some(c) => if c.text.Some? then c.text.value else ""
  }

  /** One child step of a path applied to a sequence of context elements:
      for each context element in order, its children with tag `tag`. */
  function ChildStep(es: seq<Element>, tag: string): seq<Element>
    decreases |es|
  {
    if es == [] then []
    else Tagged(es[0].children, tag) + ChildStep(es[1..], tag)
  }

  /** The child step holds exactly the children with that tag of the
      context elements. */
  lemma {:induction false} ChildStepMembers(es: seq<Element>, tag: string)
    ensures forall y :: y in ChildStep(es, tag) <==>
              y.tag == tag && exists x :: x in es && y in x.children
    decreases |es|
  {
    if es != [] {
      ChildStepMembers(es[1..], tag);
      assert forall x :: x in es <==> x == es[0] || x in es[1..];
    }
  }

  /** `e.findall(".//listOfSkillsEx/extrnalObj/name")`. */
  function SkillNameElements(e: Element): seq<Element> {
    ChildStep(ChildStep(FindAll(e, "listOfSkillsEx"), "extrnalObj"), "name")
  }

  /** The skill path reaches exactly the `name` children of `extrnalObj`
      children of `listOfSkillsEx` elements below `e`. */
  lemma SkillNameElementsMembers(e: Element)
    ensures forall n :: n in SkillNameElements(e) <==>
              n.tag == "name"
              && exists l, x :: l in FindAll(e, "listOfSkillsEx") && x in l.children
                                && x.tag == "extrnalObj" && n in x.children
  {
    var lists := FindAll(e, "listOfSkillsEx");
    ChildStepMembers(lists, "extrnalObj");
    ChildStepMembers(ChildStep(lists, "extrnalObj"), "name");
  }
}
