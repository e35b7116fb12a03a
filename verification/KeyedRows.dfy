// A sequence of keyed cells read as a map: the key of every cell that holds a value.
module KeyedRows {
  import opened AccountModels

  datatype Cell<+V> = Cell(key: string, value: Option<V>)

  ghost predicate KeysDiffer<V>(cells: seq<Cell<V>>) {
    forall i, j :: 0 <= i < j < |cells| ==> cells[i].key != cells[j].key
  }

  ghost function Keyed<V>(cells: seq<Cell<V>>): map<string, V>
    requires KeysDiffer(cells)
  {
    map i | 0 <= i < |cells| && cells[i].value.Some? :: cells[i].key := cells[i].value.value
  }

  ghost function Store<V>(m: map<string, V>, c: Cell<V>): map<string, V> {
    if c.value.Some? then m[c.key := c.value.value] else m - {c.key}
  }

  ghost predicate HasKey<V>(cells: seq<Cell<V>>, k: string) { exists i :: 0 <= i < |cells| && cells[i].key == k }

  ghost predicate Shows<V>(m: map<string, V>, c: Cell<V>) {
    if c.value.Some? then c.key in m && m[c.key] == c.value.value else c.key !in m
  }

  lemma KeyedShows<V>(cells: seq<Cell<V>>)
    requires KeysDiffer(cells)
    ensures forall i :: 0 <= i < |cells| ==> Shows(Keyed(cells), cells[i])
    ensures forall k :: k in Keyed(cells) ==> HasKey(cells, k)
  {
  }

  /** A map that shows every cell and has no other key is the map of the cells. */
  lemma KeyedIsUnique<V>(cells: seq<Cell<V>>, m: map<string, V>)
    requires KeysDiffer(cells)
    requires forall i :: 0 <= i < |cells| ==> Shows(m, cells[i])
    requires forall k :: k in m ==> HasKey(cells, k)
    ensures m == Keyed(cells)
  {
    KeyedShows(cells);
    forall k | k in m || k in Keyed(cells) ensures k in m && k in Keyed(cells) && m[k] == Keyed(cells)[k] {
      assert HasKey(cells, k);
      var i :| 0 <= i < |cells| && cells[i].key == k;
      assert Shows(m, cells[i]) && Shows(Keyed(cells), cells[i]);
    }
  }

  lemma KeyedAfterAppend<V>(cells: seq<Cell<V>>, c: Cell<V>)
    requires KeysDiffer(cells + [c])
    ensures KeysDiffer(cells) && Keyed(cells + [c]) == Store(Keyed(cells), c)
  {
    var more := cells + [c];
    assert more[|cells|] == c;
    assert forall i :: 0 <= i < |cells| ==> more[i] == cells[i];
    KeyedShows(cells);
    forall k | k in Store(Keyed(cells), c) ensures HasKey(more, k) {
      if k == c.key {
        assert more[|cells|].key == k;
      } else {
        assert HasKey(cells, k);
        var i :| 0 <= i < |cells| && cells[i].key == k;
        assert more[i].key == k;
      }
    }
    KeyedIsUnique(more, Store(Keyed(cells), c));
  }

  lemma KeyedAfterSet<V>(cells: seq<Cell<V>>, i: nat, c: Cell<V>)
    requires KeysDiffer(cells) && i < |cells| && cells[i].key == c.key
    ensures KeysDiffer(cells[i := c]) && Keyed(cells[i := c]) == Store(Keyed(cells), c)
  {
    var after := cells[i := c];
    KeyedShows(cells);
    forall j | 0 <= j < |after| ensures Shows(Store(Keyed(cells), c), after[j]) {
      if j != i {
        assert after[j] == cells[j] && Shows(Keyed(cells), cells[j]);
      }
    }
    forall k | k in Store(Keyed(cells), c) ensures HasKey(after, k) {
      if k == c.key {
        assert after[i].key == k;
      } else {
        assert HasKey(cells, k);
        var j :| 0 <= j < |cells| && cells[j].key == k;
        assert after[j].key == k;
      }
    }
    KeyedIsUnique(after, Store(Keyed(cells), c));
  }

  /** A map after a page of keyed cells has been stored into it. */
  ghost function Apply<V>(m: map<string, V>, page: map<string, Option<V>>): map<string, V> {
    map k | k in m.Keys + page.Keys && (k in page ==> page[k].Some?) :: if k in page then page[k].value else m[k]
  }

  lemma ApplyOneMore<V>(m: map<string, V>, page: map<string, Option<V>>, k: string, v: Option<V>)
    ensures Apply(m, page[k := v]) == Store(Apply(m, page), Cell(k, v))
  {
  }

  lemma ApplyTwice<V>(m: map<string, V>, p: map<string, Option<V>>, q: map<string, Option<V>>)
    ensures Apply(Apply(m, p), q) == Apply(m, p + q)
  {
  }

  ghost predicate SameAt<V>(left: map<string, V>, right: map<string, V>, k: string) {
    if k in right then k in left && left[k] == right[k] else k !in left
  }

  /** Applying cells gives a target when each cell, and the map where there is no cell, agrees
      with the target. */
  lemma ApplyGives<V>(view: map<string, V>, cells: map<string, Option<V>>, target: map<string, V>)
    requires forall k :: k !in cells ==> SameAt(view, target, k)
    requires forall k :: k in cells ==>
               if cells[k].Some? then k in target && target[k] == cells[k].value else k !in target
    ensures Apply(view, cells) == target
  {
    var o := Apply(view, cells);
    forall k ensures SameAt(o, target, k) {
      if k !in cells {
        assert SameAt(view, target, k);
      }
    }
    assert forall k :: k in o <==> k in target by {
      forall k ensures k in o <==> k in target {
        assert SameAt(o, target, k);
      }
    }
    assert forall k :: k in o ==> SameAt(o, target, k);
  }
}
