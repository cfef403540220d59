/**
  The store is keyed by text; its meaning is keyed by names. Since reading a name is
  injective, every command on the text store is the same command on the names.
 */
module TypedNames {
  import opened PlaceKeys
  import opened CacheSpec

  type Store = map<string, Entry<string>>

  function ReadSet(texts: set<string>): set<Name> {
    set s | s in texts :: ReadName(s)
  }

  function TypedEntry(e: Entry<string>): Entry<Name> {
    match e
    case Text(value, deadline) => Text(ReadName(value), deadline)
    case Record(body, deadline) => Record(body, deadline)
    case Members(items) => Members(ReadSet(items))
  }

  lemma ReadNameInjective(a: string, b: string)
    requires ReadName(a) == ReadName(b)
    ensures a == b
  {
    RenderReadName(a);
    RenderReadName(b);
  }

  ghost function Typed(store: Store): Names {
    assert forall s :: s in store ==> Render(ReadName(s)) == s by {
      forall s | s in store ensures Render(ReadName(s)) == s { RenderReadName(s); }
    }
    map n | n in ReadSet(store.Keys) :: TypedEntry(store[Render(n)])
  }

  lemma TypedLookup(store: Store, s: string)
    ensures s in store <==> ReadName(s) in Typed(store)
    ensures s in store ==> Typed(store)[ReadName(s)] == TypedEntry(store[s])
  {
    hide ReadName, Render;
    RenderReadName(s);
    forall t | t in store && ReadName(t) == ReadName(s) ensures t == s { ReadNameInjective(t, s); }
  }

  lemma TypedPut(store: Store, s: string, e: Entry<string>)
    ensures Typed(store[s := e]) == Typed(store)[ReadName(s) := TypedEntry(e)]
  {
    hide ReadName, Render;
    RenderReadName(s);
    forall t | t in store ensures Render(ReadName(t)) == t { RenderReadName(t); }
  }

  lemma TypedDrop(store: Store, texts: set<string>)
    ensures Typed(store - texts) == Typed(store) - ReadSet(texts)
  {
    hide ReadName, Render;
    forall t | t in store || t in texts ensures Render(ReadName(t)) == t { RenderReadName(t); }
  }

  lemma ReadSetUnion(a: set<string>, b: set<string>)
    ensures ReadSet(a + b) == ReadSet(a) + ReadSet(b)
    ensures ReadSet(a - b) == ReadSet(a) - ReadSet(b)
    ensures ReadSet(a) == {} <==> a == {}
  {
    hide ReadName;
    forall s, t | s in a && t in b && ReadName(s) == ReadName(t) ensures s == t { ReadNameInjective(s, t); }
    if a != {} {
      var s :| s in a;
      assert ReadName(s) in ReadSet(a);
    }
  }

  lemma InReadSet(texts: set<string>, s: string)
    ensures s in texts <==> ReadName(s) in ReadSet(texts)
  {
    hide ReadName;
    forall t | t in texts && ReadName(t) == ReadName(s) ensures t == s { ReadNameInjective(t, s); }
  }

  lemma ReadSetOne(s: string)
    ensures ReadSet({s}) == {ReadName(s)}
  {
    hide ReadName;
  }

  lemma ReadEmpty()
    ensures ReadName("") == OtherName("")
  {
  }
}
