/**
 * The bounded history of viewed items: the `loadedData` map from load time to
 * API response, and the `.buttons` container whose first child is fixed and
 * whose other children are one rocket button per loaded item.  `updateMap`
 * trims both to their bounds, oldest first; `addImage` adds a button and an
 * entry and then trims.  The DOM is reduced to the list of children.
 */
module Gallery {
  import opened Wrappers
  import opened OrderedMap

  /** The fields of an API response the page reads. */
  datatype Content = Content(title: string, date: string, explanation: string,
                             url: string, hdurl: string, mediaType: string)

  /**
   * A child of the `.buttons` container: the fixed first element, or a rocket
   * button labelled with a title whose click handler looks up `id`.
   */
  datatype Child = Pinned | Rocket(id: int, caption: string)

  /** `updateMap` keeps at most this many entries in `loadedData`... */
  const MaxEntries: nat := 5
  /** ...and at most this many children in the container, the fixed one included. */
  const MaxChildren: nat := 6

  /** What the first loop of `updateMap` leaves: it deletes the first key while there are too many. */
  function TrimmedData(m: JsMap<Content>): (r: JsMap<Content>)
    requires OrderedMap.Valid(m)
    ensures OrderedMap.Valid(r)
    ensures Size(r) == if Size(m) <= MaxEntries then Size(m) else MaxEntries
    ensures r.keys == m.keys[Size(m) - Size(r)..]
    ensures forall k :: k in r.keys ==> Get(r, k) == Get(m, k)
    ensures forall k :: k !in r.keys ==> Get(r, k) == None
    decreases Size(m)
  {
    if Size(m) <= MaxEntries then m
    else
      DeleteOldest(m);
      var rest := Delete(m, m.keys[0]);
      var r := TrimmedData(rest);
      TrimmedDataStep(m, rest, r);
      r
  }

  /** One eviction step: what survives trimming the rest survives trimming `m`. */
  lemma TrimmedDataStep(m: JsMap<Content>, rest: JsMap<Content>, r: JsMap<Content>)
    requires OrderedMap.Valid(m) && Size(m) > MaxEntries
    requires rest.keys == m.keys[1..]
    requires forall k :: k != m.keys[0] ==> Get(rest, k) == Get(m, k)
    requires Size(r) <= Size(rest) && r.keys == rest.keys[Size(rest) - Size(r)..]
    requires forall k :: k in r.keys ==> Get(r, k) == Get(rest, k)
    ensures r.keys == m.keys[Size(m) - Size(r)..]
    ensures forall k :: k in r.keys ==> Get(r, k) == Get(m, k)
  {
    assert r.keys == m.keys[1..][Size(rest) - Size(r)..];
    forall k | k in r.keys ensures Get(r, k) == Get(m, k) {
      assert k in m.keys[1..];
      assert k != m.keys[0];
    }
  }

  /** What the second loop of `updateMap` leaves: it removes child 1 while there are too many. */
  function TrimmedChildren(c: seq<Child>): (r: seq<Child>)
    ensures |r| == if |c| <= MaxChildren then |c| else MaxChildren
    ensures |c| > 0 ==> r[0] == c[0]
    ensures c == [] || r[1..] == c[|c| - |r| + 1..]
    decreases |c|
  {
    if |c| <= MaxChildren then c
    else TrimmedChildren(c[..1] + c[2..])
  }

  /**
   * The buttons after the fixed child correspond one to one, in order, to the
   * keys of the map.
   */
  predicate InSync(c: seq<Child>, m: JsMap<Content>) {
    |c| == Size(m) + 1 && c[0] == Pinned &&
    forall j :: 1 <= j < |c| ==> c[j].Rocket? && c[j].id == m.keys[j - 1]
  }

  /** With few enough entries and children, `updateMap` changes nothing, so a second call is a no-op. */
  lemma UpdateMapIdempotent(m: JsMap<Content>, c: seq<Child>)
    requires OrderedMap.Valid(m)
    ensures Size(m) <= MaxEntries ==> TrimmedData(m) == m
    ensures |c| <= MaxChildren ==> TrimmedChildren(c) == c
    ensures TrimmedData(TrimmedData(m)) == TrimmedData(m)
    ensures TrimmedChildren(TrimmedChildren(c)) == TrimmedChildren(c)
  {
  }

  /** Trimming both sides keeps them in step: the same oldest items go from both. */
  lemma {:induction false} TrimKeepsSync(c: seq<Child>, m: JsMap<Content>)
    requires OrderedMap.Valid(m) && InSync(c, m)
    ensures InSync(TrimmedChildren(c), TrimmedData(m))
  {
    var c', m' := TrimmedChildren(c), TrimmedData(m);
    if Size(m) > MaxEntries {
      var d := Size(m) - MaxEntries;
      forall j | 1 <= j < |c'|
        ensures c'[j].Rocket? && c'[j].id == m'.keys[j - 1]
      {
        assert c'[1..][j - 1] == c[d + j];
        assert m'.keys[j - 1] == m.keys[d + j - 1];
      }
    }
  }

  /** Every button that is shown finds its content when clicked. */
  lemma ButtonsResolve(c: seq<Child>, m: JsMap<Content>)
    requires OrderedMap.Valid(m) && InSync(c, m)
    ensures forall i :: 1 <= i < |c| ==> c[i].Rocket? && Get(m, c[i].id).Some?
  {
    forall i | 1 <= i < |c|
      ensures c[i].Rocket? && Get(m, c[i].id).Some?
    {
      assert c[i].id == m.keys[i - 1];
    }
  }

  /** Adding an item under a new id keeps the buttons and the keys in step. */
  lemma AddKeepsSync(c: seq<Child>, m: JsMap<Content>, id: int, content: Content)
    requires OrderedMap.Valid(m) && InSync(c, m) && id !in m.keys
    ensures InSync(TrimmedChildren(c + [Rocket(id, content.title)]), TrimmedData(Set(m, id, content)))
  {
    var c1, m1 := c + [Rocket(id, content.title)], Set(m, id, content);
    assert InSync(c1, m1);
    TrimKeepsSync(c1, m1);
  }

  /** The item just added survives the trim, so its button's lookup succeeds. */
  lemma NewestSurvives(m: JsMap<Content>, id: int, content: Content)
    requires OrderedMap.Valid(m) && (id !in m.keys || Size(m) <= MaxEntries)
    ensures Get(TrimmedData(Set(m, id, content)), id) == Some(content)
  {
    var m1 := Set(m, id, content);
    var r := TrimmedData(m1);
    if id !in m.keys {
      assert m1.keys[Size(m1) - 1] == id;
      assert r.keys[Size(r) - 1] == id;
    }
  }

  /**
   * Two items added within the same millisecond share an id: the map keeps its
   * key order and only the value changes, while the container still gains a
   * button, so buttons and keys fall out of step.  Below the bound the extra
   * button stays; at the bound the trim evicts the oldest button instead, whose
   * key stays in the map.
   */
  lemma SameIdOverwrites(c: seq<Child>, m: JsMap<Content>, id: int, content: Content)
    requires OrderedMap.Valid(m) && InSync(c, m) && id in m.keys && Size(m) <= MaxEntries
    ensures TrimmedData(Set(m, id, content)).keys == m.keys
    ensures Get(TrimmedData(Set(m, id, content)), id) == Some(content)
    ensures Size(m) < MaxEntries ==> |TrimmedChildren(c + [Rocket(id, content.title)])| == |c| + 1
    ensures Size(m) == MaxEntries ==>
      TrimmedChildren(c + [Rocket(id, content.title)]) == [Pinned] + c[2..] + [Rocket(id, content.title)] &&
      Get(TrimmedData(Set(m, id, content)), c[1].id).Some?
    ensures !InSync(TrimmedChildren(c + [Rocket(id, content.title)]), TrimmedData(Set(m, id, content)))
  {
    var c1 := c + [Rocket(id, content.title)];
    var m1 := TrimmedData(Set(m, id, content));
    if Size(m) == MaxEntries {
      var r := c1[..1] + c1[2..];
      assert r == [Pinned] + c[2..] + [Rocket(id, content.title)];
      assert TrimmedChildren(c1) == TrimmedChildren(r) == r;
      assert r[1] == c[2] && c[2].id == m.keys[1] != m.keys[0];
      assert c[1].id == m.keys[0];
    }
  }

  /** The page's module-level state: `loadedData` and the children of the `.buttons` container. */
  class History {
    var loadedData: JsMap<Content>
    var buttons: seq<Child>

    /** The page as loaded: no data and only the fixed child. */
    constructor ()
      ensures OrderedMap.Valid(loadedData) && InSync(buttons, loadedData)
      ensures loadedData == Empty() && buttons == [Pinned]
    {
      loadedData := Empty();
      buttons := [Pinned];
    }

    /** `updateMap`: evicts the oldest entries, then the oldest buttons, down to their bounds. */
    method UpdateMap()
      requires OrderedMap.Valid(loadedData)
      modifies this
      ensures OrderedMap.Valid(loadedData)
      ensures loadedData == TrimmedData(old(loadedData))
      ensures buttons == TrimmedChildren(old(buttons))
    {
      while Size(loadedData) > MaxEntries
        invariant OrderedMap.Valid(loadedData)
        invariant TrimmedData(loadedData) == TrimmedData(old(loadedData))
        invariant buttons == old(buttons)
        decreases Size(loadedData)
      {
        DeleteOldest(loadedData);
        loadedData := Delete(loadedData, loadedData.keys[0]);
      }
      while |buttons| > MaxChildren
        invariant TrimmedChildren(buttons) == TrimmedChildren(old(buttons))
        invariant loadedData == TrimmedData(old(loadedData))
        decreases |buttons|
      {
        buttons := buttons[..1] + buttons[2..];
      }
    }

    /** `addImage`: appends a button, stores the content under the current time, then trims. */
    method AddImage(content: Content, now: int)
      requires OrderedMap.Valid(loadedData)
      modifies this
      ensures OrderedMap.Valid(loadedData)
      ensures buttons == TrimmedChildren(old(buttons) + [Rocket(now, content.title)])
      ensures loadedData == TrimmedData(Set(old(loadedData), now, content))
      ensures now !in old(loadedData.keys) || Size(old(loadedData)) <= MaxEntries ==>
        Get(loadedData, now) == Some(content)
      ensures old(InSync(buttons, loadedData)) && now !in old(loadedData.keys) ==>
        InSync(buttons, loadedData)
    {
      buttons := buttons + [Rocket(now, content.title)];
      loadedData := Set(loadedData, now, content);
      UpdateMap();
      if now !in old(loadedData.keys) || Size(old(loadedData)) <= MaxEntries {
        NewestSurvives(old(loadedData), now, content);
      }
      if old(InSync(buttons, loadedData)) && now !in old(loadedData.keys) {
        AddKeepsSync(old(buttons), old(loadedData), now, content);
      }
    }

    /** The click handler of the button for `id`: `loadedData.get(id)`. */
    function Lookup(id: int): (r: Option<Content>)
      reads this
      ensures OrderedMap.Valid(loadedData) ==> (r.Some? <==> id in loadedData.keys)
    {
      Get(loadedData, id)
    }
  }
}
