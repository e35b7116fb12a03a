// The collected search results: once per address, in the order in which they were found.
module AdapterSources {
  import opened AccountModels
  import opened Sequences
  import opened Citations
  import opened CitationText
  import opened StreamAdapter

  /** The first result found with its address, and it has one. */
  ghost predicate Counts(found: seq<Source>, i: int)
    requires i < |found|
  {
    0 <= i && found[i].url != "" && FirstWith(found, found[i].url, i)
  }

  ghost predicate CollectedAt(found: seq<Source>, places: seq<nat>, sources: seq<Source>) {
    && |sources| == |places|
    && (forall k :: 0 <= k < |places| ==> places[k] < |found| && sources[k] == found[places[k]])
    && (forall j, k :: 0 <= j < k < |places| ==> places[j] < places[k])
    && (forall i :: 0 <= i < |found| ==> (i in places <==> Counts(found, i)))
  }

  /** The sources are the first result for each address, in order. */
  ghost predicate Collected(found: seq<Source>, sources: seq<Source>) {
    exists places :: CollectedAt(found, places, sources)
  }

  lemma NothingCollected()
    ensures Collected([], [])
  {
    assert CollectedAt([], [], []);
  }

  lemma CountsOneMore(found: seq<Source>, x: Source)
    ensures forall i :: 0 <= i < |found| ==> (Counts(found + [x], i) <==> Counts(found, i))
    ensures Counts(found + [x], |found|) <==> x.url != "" && forall j :: 0 <= j < |found| ==> found[j].url != x.url
  {
    var all := found + [x];
    assert all[|found|] == x && forall j :: 0 <= j < |found| ==> all[j] == found[j];
  }

  /** An address is among the collected ones exactly when it was found. */
  lemma SeenIsFound(found: seq<Source>, places: seq<nat>, sources: seq<Source>, url: string)
    requires CollectedAt(found, places, sources) && url != ""
    ensures url in UrlsSeen(sources) <==> exists j :: 0 <= j < |found| && found[j].url == url
  {
    if j :| 0 <= j < |found| && found[j].url == url {
      var i := FirstFound(found, url, j);
      assert Counts(found, i);
      var k :| 0 <= k < |places| && places[k] == i;
      assert sources[k].url == url;
    }
  }

  lemma {:induction false} FirstFound(found: seq<Source>, url: string, j: nat) returns (i: nat)
    requires j < |found| && found[j].url == url
    ensures FirstWith(found, url, i)
  {
    i := j;
    if k: nat :| k < j && found[k].url == url {
      i := FirstFound(found, url, k);
    }
  }

  /** One more result, unless it has no address or one that is there already. */
  function WithSource(sources: seq<Source>, x: Source): seq<Source> {
    if x.url == "" || x.url in UrlsSeen(sources) then sources else sources + [x]
  }

  lemma {:induction false} CollectOneSource(found: seq<Source>, sources: seq<Source>, x: Source)
    requires Collected(found, sources)
    ensures Collected(found + [x], WithSource(sources, x))
  {
    var places :| CollectedAt(found, places, sources);
    CountsOneMore(found, x);
    if x.url != "" {
      SeenIsFound(found, places, sources, x.url);
    }
    if Counts(found + [x], |found|) {
      PlaceAdded(found, places, sources, x);
    } else {
      assert CollectedAt(found + [x], places, sources);
    }
  }

  lemma PlaceAdded(found: seq<Source>, places: seq<nat>, sources: seq<Source>, x: Source)
    requires CollectedAt(found, places, sources) && Counts(found + [x], |found|)
    ensures CollectedAt(found + [x], places + [|found|], sources + [x])
  {
    var all, more := found + [x], places + [|found|];
    CountsOneMore(found, x);
    assert more[|places|] == |found|;
    forall i | 0 <= i < |all| ensures i in more <==> Counts(all, i) {
      if i < |found| {
        assert i in more <==> i in places;
      }
    }
  }

  lemma {:induction false} AddStep(sources: seq<Source>, more: seq<Source>)
    requires more != []
    ensures AddSources(sources, more) == AddSources(WithSource(sources, more[0]), more[1..])
  {
  }

  /** Collecting more results. */
  lemma {:induction false} AddCollects(found: seq<Source>, sources: seq<Source>, more: seq<Source>)
    requires Collected(found, sources)
    ensures Collected(found + more, AddSources(sources, more))
    decreases |more|
  {
    if more == [] {
      assert found + more == found;
    } else {
      CollectOneSource(found, sources, more[0]);
      AddStep(sources, more);
      AddCollects(found + [more[0]], WithSource(sources, more[0]), more[1..]);
      InTwoParts(found, [more[0]], more[1..]);
      assert [more[0]] + more[1..] == more;
    }
  }

  lemma FirstIsCollected(found: seq<Source>, places: seq<nat>, sources: seq<Source>, url: string, i: nat)
    requires CollectedAt(found, places, sources) && url != "" && FirstWith(found, url, i)
    ensures exists k :: FirstWith(sources, url, k) && sources[k] == found[i]
  {
    assert Counts(found, i);
    var k :| 0 <= k < |places| && places[k] == i;
    forall j | 0 <= j < k ensures sources[j].url != url {
      assert places[j] < places[k];
    }
    assert FirstWith(sources, url, k);
  }

  /** A title looked up among the collected sources is the one looked up among all results. */
  lemma {:induction false} TitleAmongAll(found: seq<Source>, sources: seq<Source>, card: Card, title: string)
    requires Collected(found, sources) && card.url != "" && Titled(card, sources, title)
    ensures Titled(card, found, title)
  {
    var places :| CollectedAt(found, places, sources);
    if card.title == "" {
      forall i | FirstWith(found, card.url, i)
        ensures title == if found[i].title == "" then card.url else found[i].title
      {
        FirstIsCollected(found, places, sources, card.url, i);
      }
      if forall i :: 0 <= i < |found| ==> found[i].url != card.url {
        forall k | 0 <= k < |sources| ensures sources[k].url != card.url {
          assert sources[k] == found[places[k]];
        }
      }
    }
  }
}
