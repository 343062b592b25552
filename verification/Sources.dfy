/** The registry of sources an agent run has read. */
module Sources {
  import opened Records
  import opened Citations

  datatype Source = Source(id: nat, title: string, url: string)

  /** Normalised metadata; rejected metadata is `None` where the source throws. */
  datatype Identity = Identity(title: string, url: string)

  ghost predicate Numbered(sources: seq<Source>) {
    forall i :: 0 <= i < |sources| ==> sources[i].id == i + 1
  }

  ghost predicate DistinctUrls(sources: seq<Source>) {
    forall i, j :: 0 <= i < j < |sources| ==> sources[i].url != sources[j].url
  }

  function Ids(sources: seq<Source>): set<nat> { set s | s in sources :: s.id }

  lemma IdsAreOneToN(sources: seq<Source>, id: nat)
    requires Numbered(sources)
    ensures id in Ids(sources) <==> 1 <= id <= |sources|
  {
    if 1 <= id <= |sources| { assert sources[id - 1] in sources; }
  }

  class SourceRegistry {
    var sources: seq<Source>
    var byUrl: map<string, Source>

    ghost predicate Valid()
      reads this
    {
      && Numbered(sources) && DistinctUrls(sources)
      && (forall s :: s in sources ==> s.url in byUrl && byUrl[s.url] == s)
      && (forall url :: url in byUrl ==> byUrl[url] in sources && byUrl[url].url == url)
    }

    constructor ()
      ensures Valid() && sources == []
    {
      sources, byUrl := [], map[];
    }

    /** A new URL gets the next number; a known one keeps its source; bad metadata changes nothing. */
    method Register(identity: Option<Identity>) returns (registered: Option<Source>)
      requires Valid()
      modifies this
      ensures Valid() && old(sources) <= sources
      ensures identity.None? ==> registered.None? && sources == old(sources)
      ensures identity.Some? ==> registered.Some? && registered.value.url == identity.value.url
                                 && registered.value in sources
      ensures identity.Some? && (exists s :: s in old(sources) && s.url == identity.value.url)
              ==> sources == old(sources)
      ensures identity.Some? && (forall s :: s in old(sources) ==> s.url != identity.value.url)
              ==> sources == old(sources) + [Source(|old(sources)| + 1, identity.value.title, identity.value.url)]
    {
      if identity.None? { return None; }
      var url := identity.value.url;
      if url in byUrl { return Some(byUrl[url]); }
      var source := Source(|sources| + 1, identity.value.title, url);
      sources := sources + [source];
      byUrl := byUrl[url := source];
      registered := Some(source);
    }

    /** The answer without the markers whose number was never given out. */
    method Finalize(text: Text) returns (rewritten: Text, snapshot: seq<Source>, ghost cuts: seq<Range>)
      requires Valid()
      ensures snapshot == sources
      ensures CutsUnread(text, Ids(sources), cuts) && rewritten == Without(text, cuts, 0)
      ensures MarkersOf(text, Markers(Visible(text), 0), 0) && cuts == CutsOf(text, Markers(Visible(text), 0), Ids(sources))
      ensures forall o :: IsCitation(Visible(text), o) && !(1 <= o.id <= |sources|) ==>
                exists i :: 0 <= i < |cuts| && cuts[i].start <= o.start < o.end <= cuts[i].end
    {
      snapshot := sources;
      rewritten, cuts := StripUnreadMarkers(text, Ids(snapshot));
      forall o | IsCitation(Visible(text), o) && !(1 <= o.id <= |sources|) ensures o.id !in Ids(sources) {
        IdsAreOneToN(sources, o.id);
      }
    }
  }
}
