/**
 * Caption items and chapters as the services pass them around: an item is a
 * `{text, start, duration}` record (times in seconds), a chapter a
 * `{title, start_seconds}` record.
 */
module Captions {
  import opened Text

  datatype Item = Item(text: string, start: real, duration: real)

  datatype Chapter = Chapter(title: string, startSeconds: real)

  /** `item['start'] + item['duration']`. */
  function End(item: Item): real {
    item.start + item.duration
  }

  /** `[item['text'] for item in items]`. */
  function Texts(items: seq<Item>): seq<string>
  {
    if items == [] then [] else [items[0].text] + Texts(items[1..])
  }

  /** `' '.join(item['text'] for item in items)`. */
  function JoinTexts(items: seq<Item>): string {
    Join(Texts(items), " ")
  }

  /** The texts are taken one per item, in order. */
  lemma {:induction false} TextsInOrder(items: seq<Item>)
    ensures |Texts(items)| == |items|
    ensures forall i :: 0 <= i < |items| ==> Texts(items)[i] == items[i].text
  {
    if items != [] {
      TextsInOrder(items[1..]);
    }
  }

  lemma {:induction false} TextsAppend(items: seq<Item>, more: seq<Item>)
    ensures Texts(items + more) == Texts(items) + Texts(more)
  {
    if items != [] {
      assert (items + more)[1..] == items[1..] + more;
      TextsAppend(items[1..], more);
    } else {
      assert items + more == more;
    }
  }

  /** Rendering one more item appends a single space and its text. */
  lemma JoinTextsSnoc(items: seq<Item>, x: Item)
    ensures JoinTexts(items + [x]) == if items == [] then x.text else JoinTexts(items) + " " + x.text
  {
    TextsAppend(items, [x]);
    assert Texts([x]) == [x.text];
    JoinSnoc(Texts(items), x.text, " ");
  }

  /**
   * `max(item['start'] + item['duration'] for item in items) if items else 0`:
   * no item ends later than the total, and for a non-empty list some item ends exactly then.
   */
  function TotalDuration(items: seq<Item>): (d: real)
    ensures items == [] ==> d == 0.0
    ensures forall i :: 0 <= i < |items| ==> End(items[i]) <= d
    ensures items != [] ==> exists i :: 0 <= i < |items| && End(items[i]) == d
  {
    if items == [] then 0.0
    else if |items| == 1 then End(items[0])
    else
      var rest := TotalDuration(items[1..]);
      assert forall i :: 1 <= i < |items| ==> items[i] == items[1..][i - 1];
      if End(items[0]) >= rest then End(items[0]) else rest
  }
}
