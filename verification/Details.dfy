/**
  How both adapters turn what is to be approved into the details that a human sees, and the
  promise behind the flag `detailsTruncated`: while it is down, nothing was left out.
 */
module Details {
  import opened V0

  /** Everything that was to be shown fits the limits of the protocol. */
  predicate Fits(items: seq<Detail>) {
    && |items| <= MAX_DETAILS
    && forall d :: d in items ==> |d.caption| <= MAX_DETAIL_LABEL_LEN && |d.text| <= MAX_DETAIL_TEXT_LEN
  }

  function Cut(d: Detail): Detail {
    Detail(Clamp(d.caption, MAX_DETAIL_LABEL_LEN), Clamp(d.text, MAX_DETAIL_TEXT_LEN), d.kind)
  }

  /** What is shown of the items: the first sixteen, each cut to size. */
  function Shown(items: seq<Detail>): seq<Detail> {
    var n := if |items| <= MAX_DETAILS then |items| else MAX_DETAILS;
    seq(n, i requires 0 <= i < n => Cut(items[i]))
  }

  lemma ShownWhole(items: seq<Detail>)
    requires Fits(items)
    ensures Shown(items) == items
  {
    forall i | 0 <= i < |items| ensures Cut(items[i]) == items[i] {
      assert items[i] in items;
    }
  }

  /** The list that the builders fill through their `add` closure, and its flag. */
  class Sheet {
    var details: seq<Detail>
    var truncated: bool
    ghost var items: seq<Detail>

    ghost predicate Valid() reads this {
      details == Shown(items) && truncated == !Fits(items)
    }

    constructor ()
      ensures Valid() && items == []
    {
      details, truncated, items := [], false, [];
    }

    method Add(caption: string, text: string, kind: string)
      requires Valid()
      modifies this
      ensures Valid() && items == old(items) + [Detail(caption, text, kind)]
    {
      ghost var d := Detail(caption, text, kind);
      ghost var all := items + [d];
      assert all[|items|] == d;
      assert Fits(all) ==> Fits(items) by {
        assert forall x :: x in items ==> x in all;
      }
      if |details| >= MAX_DETAILS {
        truncated := true;
      } else {
        truncated := truncated || |text| > MAX_DETAIL_TEXT_LEN || |caption| > MAX_DETAIL_LABEL_LEN;
        details := details + [Detail(Clamp(caption, MAX_DETAIL_LABEL_LEN), Clamp(text, MAX_DETAIL_TEXT_LEN), kind)];
        assert forall x :: x in all <==> x in items || x == d;
      }
      items := all;
    }
  }
}
