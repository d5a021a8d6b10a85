/**
 Lists of diffs: what they stand for, and the merging clean-up.  A diff list is an object
 whose entries the clean-ups replace in place; the text before and the text after, which
 are read off its entries, are what they must keep.
 */
module Diffs {
  import opened DiffText

  datatype Op = Delete | Insert | Equal

  datatype Diff = Diff(op: Op, text: Text)

  class DiffList {
    var items: seq<Diff>

    constructor (items: seq<Diff>)
      ensures this.items == items
    {
      this.items := items;
    }

    /** JavaScript's `splice`: `count` entries from `start` on make way for `replacement`. */
    method Splice(start: nat, count: nat, replacement: seq<Diff>)
      requires start + count <= |items|
      modifies this
      ensures items == old(items)[..start] + replacement + old(items)[start + count..]
    {
      items := items[..start] + replacement + items[start + count..];
    }
  }

  /** The texts of all entries but those of one kind, one after the other. */
  function TextOf(ds: seq<Diff>, without: Op): Text {
    if ds == [] then []
    else (if ds[0].op != without then ds[0].text else []) + TextOf(ds[1..], without)
  }

  /** The text before. */
  function Text1(ds: seq<Diff>): Text {
    TextOf(ds, Insert)
  }

  /** The text after. */
  function Text2(ds: seq<Diff>): Text {
    TextOf(ds, Delete)
  }

  ghost predicate SameTexts(ds: seq<Diff>, es: seq<Diff>) {
    Text1(ds) == Text1(es) && Text2(ds) == Text2(es)
  }

  /** How many units are inserted or deleted. */
  function EditChars(ds: seq<Diff>): nat {
    if ds == [] then 0
    else (if ds[0].op != Equal then |ds[0].text| else 0) + EditChars(ds[1..])
  }

  lemma {:induction false} TextConcat(ds: seq<Diff>, es: seq<Diff>, without: Op)
    ensures TextOf(ds + es, without) == TextOf(ds, without) + TextOf(es, without)
  {
    if ds == [] {
      assert ds + es == es;
    } else {
      TextConcat(ds[1..], es, without);
      assert (ds + es)[0] == ds[0] && (ds + es)[1..] == ds[1..] + es;
      Regroup(if ds[0].op != without then ds[0].text else [], TextOf(ds[1..], without), TextOf(es, without));
    }
  }

  lemma Regroup<T>(a: seq<T>, b: seq<T>, c: seq<T>)
    ensures (a + b) + c == a + (b + c)
  {
  }

  lemma TextOfOne(d: Diff, without: Op)
    ensures TextOf([d], without) == if d.op != without then d.text else []
  {
  }

  lemma {:induction false} EditCharsConcat(ds: seq<Diff>, es: seq<Diff>)
    ensures EditChars(ds + es) == EditChars(ds) + EditChars(es)
  {
    if ds == [] {
      assert ds + es == es;
    } else {
      EditCharsConcat(ds[1..], es);
      assert (ds + es)[1..] == ds[1..] + es;
    }
  }

  /** Replacing part of a list by what stands for the same texts keeps the texts of the whole. */
  lemma SplicedTexts(front: seq<Diff>, mid: seq<Diff>, mid': seq<Diff>, back: seq<Diff>)
    requires SameTexts(mid, mid')
    ensures SameTexts(front + mid + back, front + mid' + back)
  {
    forall without: Op ensures TextOf(mid, without) == TextOf(mid', without) ==>
      TextOf(front + mid + back, without) == TextOf(front + mid' + back, without) {
      TextConcat(front, mid, without);
      TextConcat(front, mid', without);
      TextConcat(front + mid, back, without);
      TextConcat(front + mid', back, without);
    }
  }

  lemma SplicedEditChars(front: seq<Diff>, mid: seq<Diff>, back: seq<Diff>)
    ensures EditChars(front + mid + back) == EditChars(front) + EditChars(mid) + EditChars(back)
  {
    EditCharsConcat(front, mid);
    EditCharsConcat(front + mid, back);
  }

  function Own(d: Diff, without: Op): Text {
    if d.op != without then d.text else []
  }

  lemma TextOfThree(x: Diff, y: Diff, z: Diff, without: Op)
    ensures TextOf([x, y, z], without) == Own(x, without) + Own(y, without) + Own(z, without)
    ensures TextOf([x, y], without) == Own(x, without) + Own(y, without)
  {
    assert [x, y] == [x] + [y] && [x, y, z] == [x, y] + [z];
    TextConcat([x], [y], without);
    TextConcat([x, y], [z], without);
  }

  lemma EditCharsOfThree(x: Diff, y: Diff, z: Diff)
    ensures EditChars([x, y, z]) == EditChars([x]) + EditChars([y]) + EditChars([z])
    ensures EditChars([x, y]) == EditChars([x]) + EditChars([y])
  {
    assert [x, y] == [x] + [y] && [x, y, z] == [x, y] + [z];
    EditCharsConcat([x], [y]);
    EditCharsConcat([x, y], [z]);
  }

  method DiffText1(diffs: seq<Diff>) returns (text: Text)
    ensures text == Text1(diffs)
  {
    text := [];
    for x := 0 to |diffs|
      invariant text == Text1(diffs[..x])
    {
      TextConcat(diffs[..x], [diffs[x]], Insert);
      assert diffs[..x + 1] == diffs[..x] + [diffs[x]];
      if diffs[x].op != Insert {
        text := text + diffs[x].text;
      }
    }
    assert diffs[..|diffs|] == diffs;
  }

  method DiffText2(diffs: seq<Diff>) returns (text: Text)
    ensures text == Text2(diffs)
  {
    text := [];
    for x := 0 to |diffs|
      invariant text == Text2(diffs[..x])
    {
      TextConcat(diffs[..x], [diffs[x]], Delete);
      assert diffs[..x + 1] == diffs[..x] + [diffs[x]];
      if diffs[x].op != Delete {
        text := text + diffs[x].text;
      }
    }
    assert diffs[..|diffs|] == diffs;
  }
}
