/** TermPreProcessor: the checks a glossary term passes on create and
    update, its qualified name, the glossary anchor it is resolved against
    (once per preprocessor), and the rewrite of the meanings text of every
    entity that carries the term after a rename. Name validation, the
    existence query and the index search are oracles. */
module TermPreProcessor {
  import opened Wrappers
  import opened Text
  import opened EntityMutations

  // ---------------------------------------------------------------------
  // Anchor

  /** The anchor glossary's header: its guid (absent for a header built from
      unique attributes) and qualified name. */
  datatype Anchor = Anchor(guid: Option<string>, qualifiedName: Option<string>)

  /** The term's `anchor` relationship attribute. */
  datatype ObjectId = ObjectId(guid: Option<string>, uniqueQualifiedName: Option<string>)

  /** `setAnchor`: a preprocessor that already holds an anchor keeps it;
      otherwise the anchor is looked up by guid, else built from the unique
      qualified name, else stays unset. A term without an anchor attribute
      is a null dereference. */
  function SetAnchor(current: Option<Anchor>, anchorRef: Option<ObjectId>, lookup: string -> Result<Anchor>): (r: Result<Option<Anchor>>)
    ensures current.Some? ==> r == Success(current)
    ensures current.None? && anchorRef.None? ==> r == Failure(NullPointer)
    ensures current.None? && anchorRef.Some? && NonEmpty(anchorRef.value.guid) ==>
      r == (var a :- lookup(anchorRef.value.guid.value); Success(Some(a)))
    ensures current.None? && anchorRef.Some? && !NonEmpty(anchorRef.value.guid) ==>
      r == Success(if NonEmpty(anchorRef.value.uniqueQualifiedName)
                   then Some(Anchor(None, anchorRef.value.uniqueQualifiedName)) else None)
  {
    if current.Some? then Success(current)
    else if anchorRef.None? then Failure(NullPointer)
    else
      var id := anchorRef.value;
      if NonEmpty(id.guid) then
        var a :- lookup(id.guid.value);
        Success(Some(a))
      else if NonEmpty(id.uniqueQualifiedName) then Success(Some(Anchor(None, id.uniqueQualifiedName)))
      else Success(None)
  }

  /** Once an anchor is set, later entities in the same batch never change
      it, whatever their anchor attribute says. */
  lemma AnchorResolvedOnce(current: Option<Anchor>, first: Option<ObjectId>, second: Option<ObjectId>, lookup: string -> Result<Anchor>)
    requires SetAnchor(current, first, lookup).Success? && SetAnchor(current, first, lookup).value.Some?
    ensures var a := SetAnchor(current, first, lookup).value;
      SetAnchor(a, second, lookup) == Success(a)
  {
  }

  // ---------------------------------------------------------------------
  // Create and update

  /** The oracles the checks consult. */
  datatype Oracles = Oracles(
    nameInvalid: string -> bool,
    termExists: (Option<string>, Option<string>) -> bool,
    authorizedCreate: bool)

  /** `termExists`: the existence query against the anchor glossary. */
  function TermExists(o: Oracles, name: Option<string>, anchor: Option<Anchor>): (r: Result<bool>)
    ensures anchor.None? <==> r.Failure?
    ensures r.Failure? ==> r.error == NullPointer
  {
    match anchor
    case None => Failure(NullPointer)
    case Some(a) => Success(o.termExists(name, a.qualifiedName))
  }

  /** The display-name check of both paths. */
  predicate ValidName(o: Oracles, name: Option<string>) {
    NonEmpty(name) && !o.nameInvalid(name.value)
  }

  /** `processCreateTerm`: the name is checked before existence; the result
      is the new qualified name `uuid@<glossary qualifiedName>`. */
  function ProcessCreateTerm(o: Oracles, name: Option<string>, anchor: Option<Anchor>, uuid: string): (r: Result<string>)
    ensures !ValidName(o, name) ==> r == Failure(InvalidDisplayName)
    ensures ValidName(o, name) && anchor.Some? && o.termExists(name, anchor.value.qualifiedName) ==> r == Failure(GlossaryTermAlreadyExists)
    ensures r.Success? <==> ValidName(o, name) && anchor.Some? && !o.termExists(name, anchor.value.qualifiedName) && o.authorizedCreate
    ensures r.Success? ==> r.value == uuid + "@" + NullableText(anchor.value.qualifiedName)
  {
    if !ValidName(o, name) then Failure(InvalidDisplayName) else
    var taken :- TermExists(o, name, anchor);
    :- Need(!taken, GlossaryTermAlreadyExists);
    var qualifiedName := uuid + "@" + NullableText(anchor.value.qualifiedName);
    :- Need(o.authorizedCreate, UnauthorizedAccess);
    Success(qualifiedName)
  }

  /** The stored term an update is checked against. */
  datatype StoredTerm = StoredTerm(name: string, qualifiedName: string, guid: string, anchorGuid: Option<string>)

  /** The checks of `processUpdateTerm`, before the meanings rewrite:
      existence is checked only for a renamed term and before the name is
      validated; moving the term to another glossary is refused; the
      qualified name is the stored one. */
  function UpdateChecks(o: Oracles, name: Option<string>, stored: StoredTerm, anchor: Option<Anchor>): (r: Result<string>)
    ensures name == Some(stored.name) && !ValidName(o, name) ==> r == Failure(InvalidDisplayName)
    ensures name != Some(stored.name) && anchor.Some? && o.termExists(name, anchor.value.qualifiedName) ==> r == Failure(GlossaryTermAlreadyExists)
    ensures r.Success? ==> r.value == stored.qualifiedName && ValidName(o, name)
    ensures r.Success? && stored.anchorGuid.Some? ==> anchor.Some? && anchor.value.guid == stored.anchorGuid
    ensures r == Failure(AnchorUpdationNotSupported) <==>
      (&& (name != Some(stored.name) ==> anchor.Some? && !o.termExists(name, anchor.value.qualifiedName))
       && ValidName(o, name)
       && stored.anchorGuid.Some? && anchor.Some? && anchor.value.guid != stored.anchorGuid)
    ensures r.Success? <==>
      (&& (name != Some(stored.name) ==> anchor.Some? && !o.termExists(name, anchor.value.qualifiedName))
       && ValidName(o, name)
       && (stored.anchorGuid.Some? ==> anchor.Some? && anchor.value.guid == stored.anchorGuid))
  {
    var clash :- if name != Some(stored.name) then TermExists(o, name, anchor) else Success(false);
    :- Need(!clash, GlossaryTermAlreadyExists);
    :- Need(ValidName(o, name), InvalidDisplayName);
    :- Need(stored.anchorGuid.None? || anchor.Some?, NullPointer);
    :- Need(stored.anchorGuid.None? || anchor.value.guid == stored.anchorGuid, AnchorUpdationNotSupported);
    Success(stored.qualifiedName)
  }

  // ---------------------------------------------------------------------
  // Meanings text

  datatype Meaning = Meaning(termGuid: string, displayText: Option<string>)

  /** An entity carrying the term, as the index search returns it. */
  datatype Header = Header(guid: string, meanings: Option<seq<Meaning>>)

  /** An entity whose meanings text can be built: its list is present and
      not empty. */
  predicate HasMeanings(h: Header) {
    h.meanings.Some? && |h.meanings.value| > 0
  }

  /** `parts` joined with ",": the reference for the meanings text. */
  function Join(parts: seq<string>): string
    requires |parts| > 0
  {
    if |parts| == 1 then parts[0] else parts[0] + "," + Join(parts[1..])
  }

  /** What the string builder holds: "," before every part. */
  function Prefixed(parts: seq<string>): (r: string)
    ensures |parts| > 0 ==> |r| > 0 && r[0] == ','
  {
    if |parts| == 0 then "" else "," + parts[0] + Prefixed(parts[1..])
  }

  lemma {:induction false} PrefixedIsJoin(parts: seq<string>)
    requires |parts| > 0
    ensures Prefixed(parts) == "," + Join(parts)
  {
    if |parts| > 1 {
      PrefixedIsJoin(parts[1..]);
    }
  }

  /** The text each meaning contributes: the new name for the renamed
      term, the stored display text for the others. */
  function MeaningTexts(meanings: seq<Meaning>, termGuid: string, updateTerm: string, isTerm: Meaning -> bool): (r: seq<string>)
    ensures |r| == |meanings|
    ensures forall i :: 0 <= i < |meanings| ==> r[i] == if isTerm(meanings[i]) then updateTerm else NullableText(meanings[i].displayText)
  {
    seq(|meanings|, i requires 0 <= i < |meanings| => if isTerm(meanings[i]) then updateTerm else NullableText(meanings[i].displayText))
  }

  /** The meanings text with the term recognised by `isTerm`: the builder
      with its first character deleted, which fails on an empty builder.
      The code compares guids with `==`, which on two Java strings is
      object identity; `isTerm` is that comparison, and `ByValue` the
      comparison by characters. */
  function MeaningsTextBy(meanings: Option<seq<Meaning>>, termGuid: string, updateTerm: string, isTerm: Meaning -> bool): (r: Result<string>)
    ensures meanings.None? ==> r == Failure(NullPointer)
    ensures meanings == Some([]) ==> r == Failure(StringIndexOutOfBounds)
    ensures r.Success? <==> meanings.Some? && |meanings.value| > 0
    ensures r.Success? ==> r.value == Join(MeaningTexts(meanings.value, termGuid, updateTerm, isTerm))
  {
    match meanings
    case None => Failure(NullPointer)
    case Some(ms) =>
      var builder := Prefixed(MeaningTexts(ms, termGuid, updateTerm, isTerm));
      if |builder| == 0 then Failure(StringIndexOutOfBounds)
      else
        PrefixedIsJoin(MeaningTexts(ms, termGuid, updateTerm, isTerm));
        Success(builder[1..])
  }

  /** The guid read from the vertex and the one deserialised from the search
      result are different objects with the same characters, so the
      identity comparison never matches: the text keeps the old display
      name of the renamed term. */
  lemma RenameLostAsWritten()
    ensures var m := Meaning("term-guid", Some("Old name"));
      && m.termGuid == "term-guid"
      && MeaningsTextBy(Some([m]), "term-guid", "New name", _ => false) == Success("Old name")
  {
    var m := Meaning("term-guid", Some("Old name"));
    assert MeaningTexts([m], "term-guid", "New name", _ => false) == ["Old name"];
  }

  /** Recognises the term by the characters of its guid. */
  function ByValue(termGuid: string): Meaning -> bool {
    (m: Meaning) => m.termGuid == termGuid
  }

  /** The meanings text with the guid compared by value. */
  function MeaningsText(meanings: Option<seq<Meaning>>, termGuid: string, updateTerm: string): (r: Result<string>)
    ensures meanings.Some? && |meanings.value| > 0 ==> r.Success?
    ensures r.Success? ==> (meanings.Some? && |meanings.value| > 0
                            && r.value == Join(MeaningTexts(meanings.value, termGuid, updateTerm, ByValue(termGuid))))
  {
    MeaningsTextBy(meanings, termGuid, updateTerm, ByValue(termGuid))
  }

  /** Every meaning of the renamed term shows the new name, and no other
      meaning changes. */
  lemma RenameShown(meanings: seq<Meaning>, termGuid: string, updateTerm: string)
    requires |meanings| > 0
    ensures var texts := MeaningTexts(meanings, termGuid, updateTerm, ByValue(termGuid));
      && MeaningsText(Some(meanings), termGuid, updateTerm) == Success(Join(texts))
      && forall i :: 0 <= i < |meanings| ==>
           texts[i] == (if meanings[i].termGuid == termGuid then updateTerm else NullableText(meanings[i].displayText))
  {
  }

  // ---------------------------------------------------------------------
  // Paging

  /** A meanings-text write: the entity guid and its new text. */
  datatype Write = Write(entityGuid: string, meaningsText: string)

  /** The writes for a list of entities, in order; the first entity whose
      text cannot be built fails the whole rewrite. */
  function Writes(headers: seq<Header>, termGuid: string, updateTerm: string, isTerm: Meaning -> bool): (r: Result<seq<Write>>)
    ensures r.Success? ==> |r.value| == |headers|
    ensures r.Success? ==> forall i :: 0 <= i < |headers| ==> r.value[i].entityGuid == headers[i].guid && HasMeanings(headers[i])
    ensures r.Failure? ==> exists i :: 0 <= i < |headers| && !HasMeanings(headers[i])
  {
    if |headers| == 0 then Success([])
    else
      var text :- MeaningsTextBy(headers[0].meanings, termGuid, updateTerm, isTerm);
      assert forall i :: 1 <= i < |headers| ==> headers[i] == headers[1..][i - 1];
      var rest :- Writes(headers[1..], termGuid, updateTerm, isTerm);
      var r := [Write(headers[0].guid, text)] + rest;
      assert forall i :: 1 <= i < |headers| ==> r[i] == rest[i - 1];
      Success(r)
  }

  /** Each entity gets its own meanings text, and the rewrite fails iff
      some entity has a null or empty meanings list. */
  lemma {:induction false} WritesMeaning(headers: seq<Header>, termGuid: string, updateTerm: string, isTerm: Meaning -> bool)
    ensures var r := Writes(headers, termGuid, updateTerm, isTerm);
      && (r.Success? ==> forall i :: 0 <= i < |headers| ==>
            r.value[i].entityGuid == headers[i].guid
            && Success(r.value[i].meaningsText) == MeaningsTextBy(headers[i].meanings, termGuid, updateTerm, isTerm))
      && (r.Failure? <==> exists i :: 0 <= i < |headers| && !HasMeanings(headers[i]))
  {
    if |headers| > 0 {
      WritesMeaning(headers[1..], termGuid, updateTerm, isTerm);
      var r := Writes(headers, termGuid, updateTerm, isTerm);
      var rest := Writes(headers[1..], termGuid, updateTerm, isTerm);
      forall i | 1 <= i < |headers|
        ensures headers[i] == headers[1..][i - 1]
      {
      }
      if rest.Failure? && HasMeanings(headers[0]) {
        var i :| 0 <= i < |headers[1..]| && !HasMeanings(headers[1..][i]);
        assert headers[i + 1] == headers[1..][i];
      }
      if r.Success? {
        assert r.value == [r.value[0]] + rest.value;
      }
    }
  }

  /** The index search: the page of entities at a start index, or null. */
  type Search = int -> Option<seq<Header>>

  /** The loop goes on after a page iff it was returned and full. */
  predicate Continues(page: Option<seq<Header>>, offset: int) {
    page.Some? && |page.value| >= offset
  }

  /** `k` is the first page after which the loop stops. */
  ghost predicate FirstStop(search: Search, offset: int, k: nat) {
    !Continues(search(offset * k), offset) && forall j: nat :: j < k ==> Continues(search(offset * j), offset)
  }

  /** The first page index from `k` on after which the loop stops. */
  function StopPage(search: Search, offset: int, k: nat, bound: nat): (s: nat)
    requires k <= bound && !Continues(search(offset * bound), offset)
    ensures k <= s <= bound && !Continues(search(offset * s), offset)
    ensures forall j: nat :: k <= j < s ==> Continues(search(offset * j), offset)
    decreases bound - k
  {
    if !Continues(search(offset * k), offset) then k else StopPage(search, offset, k + 1, bound)
  }

  /** The entities of the pages below `n`, in order (a null page adds none). */
  function Fetched(search: Search, offset: int, n: nat): seq<Header> {
    if n == 0 then [] else Fetched(search, offset, n - 1) + search(offset * (n - 1)).GetOr([])
  }

  /** The index search the rewrite pages through, `offset` entities a page,
      and the comparison `isTerm` that recognises a meaning of the renamed
      term. `bound` is a page index at which the paging stops; it only
      bounds the paging. */
  datatype MeaningsSearch = MeaningsSearch(search: Search, offset: int, bound: nat, isTerm: Meaning -> bool)

  /** Pages are a positive number of entities, and the paging stops. */
  predicate Stops(ms: MeaningsSearch) {
    ms.offset > 0 && !Continues(ms.search(ms.offset * ms.bound), ms.offset)
  }

  /** The entities of every page up to and including the one after which
      the paging stops. */
  function RewrittenEntities(ms: MeaningsSearch): seq<Header>
    requires Stops(ms)
  {
    Fetched(ms.search, ms.offset, StopPage(ms.search, ms.offset, 0, ms.bound) + 1)
  }

  /** The whole rewrite: the writes of every entity read. */
  function MeaningsRewrite(ms: MeaningsSearch, termGuid: string, updateTerm: string): Result<seq<Write>>
    requires Stops(ms)
  {
    Writes(RewrittenEntities(ms), termGuid, updateTerm, ms.isTerm)
  }

  /** The rewrite fails iff some entity read has a null or empty meanings
      list; otherwise every entity read gets its own meanings text. */
  lemma RewriteMeaning(ms: MeaningsSearch, termGuid: string, updateTerm: string)
    requires Stops(ms)
    ensures var hs := RewrittenEntities(ms);
      var r := MeaningsRewrite(ms, termGuid, updateTerm);
      && (r.Failure? <==> exists i :: 0 <= i < |hs| && !HasMeanings(hs[i]))
      && (r.Success? ==> |r.value| == |hs| && forall i :: 0 <= i < |hs| ==>
            r.value[i].entityGuid == hs[i].guid
            && Success(r.value[i].meaningsText) == MeaningsTextBy(hs[i].meanings, termGuid, updateTerm, ms.isTerm))
  {
    WritesMeaning(RewrittenEntities(ms), termGuid, updateTerm, ms.isTerm);
  }

  /** After a prefix whose writes all succeed, the writes of the whole
      list are the prefix's followed by the rest's, or the rest's failure. */
  lemma {:induction false} WritesAppend(a: seq<Header>, b: seq<Header>, termGuid: string, updateTerm: string, isTerm: Meaning -> bool)
    requires Writes(a, termGuid, updateTerm, isTerm).Success?
    ensures var wb := Writes(b, termGuid, updateTerm, isTerm);
      Writes(a + b, termGuid, updateTerm, isTerm)
        == if wb.Success? then Success(Writes(a, termGuid, updateTerm, isTerm).value + wb.value) else Failure(wb.error)
    decreases |a|
  {
    if |a| > 0 {
      assert Writes(a[1..], termGuid, updateTerm, isTerm).Success?;
      WritesAppend(a[1..], b, termGuid, updateTerm, isTerm);
      WritesAppendStep(a, b, termGuid, updateTerm, isTerm);
    } else {
      assert a + b == b;
      var wb := Writes(b, termGuid, updateTerm, isTerm);
      if wb.Success? {
        assert [] + wb.value == wb.value;
      }
    }
  }

  /** The step of `WritesAppend`: from the tail of `a` to `a`. */
  lemma WritesAppendStep(a: seq<Header>, b: seq<Header>, termGuid: string, updateTerm: string, isTerm: Meaning -> bool)
    requires |a| > 0 && Writes(a, termGuid, updateTerm, isTerm).Success?
    requires Writes(a[1..], termGuid, updateTerm, isTerm).Success?
    requires var wb := Writes(b, termGuid, updateTerm, isTerm);
      Writes(a[1..] + b, termGuid, updateTerm, isTerm)
        == if wb.Success? then Success(Writes(a[1..], termGuid, updateTerm, isTerm).value + wb.value) else Failure(wb.error)
    ensures var wb := Writes(b, termGuid, updateTerm, isTerm);
      Writes(a + b, termGuid, updateTerm, isTerm)
        == if wb.Success? then Success(Writes(a, termGuid, updateTerm, isTerm).value + wb.value) else Failure(wb.error)
  {
    TailOfAppend(a, b);
    WritesCons(a, termGuid, updateTerm, isTerm);
    WritesCons(a + b, termGuid, updateTerm, isTerm);
    var wb := Writes(b, termGuid, updateTerm, isTerm);
    if wb.Success? {
      var w0 := Write(a[0].guid, MeaningsTextBy(a[0].meanings, termGuid, updateTerm, isTerm).value);
      ConsAppend(w0, Writes(a[1..], termGuid, updateTerm, isTerm).value, wb.value);
    }
  }

  /** A prefix whose writes fail fails the whole list with the same error. */
  lemma {:induction false} WritesFailureAppend(a: seq<Header>, b: seq<Header>, termGuid: string, updateTerm: string, isTerm: Meaning -> bool)
    requires Writes(a, termGuid, updateTerm, isTerm).Failure?
    ensures Writes(a + b, termGuid, updateTerm, isTerm) == Writes(a, termGuid, updateTerm, isTerm)
    decreases |a|
  {
    TailOfAppend(a, b);
    WritesCons(a, termGuid, updateTerm, isTerm);
    WritesCons(a + b, termGuid, updateTerm, isTerm);
    if MeaningsTextBy(a[0].meanings, termGuid, updateTerm, isTerm).Success? {
      WritesFailureAppend(a[1..], b, termGuid, updateTerm, isTerm);
    }
  }

  /** One unfolding of `Writes`. */
  lemma WritesCons(hs: seq<Header>, termGuid: string, updateTerm: string, isTerm: Meaning -> bool)
    requires |hs| > 0
    ensures var t := MeaningsTextBy(hs[0].meanings, termGuid, updateTerm, isTerm);
      var w := Writes(hs[1..], termGuid, updateTerm, isTerm);
      Writes(hs, termGuid, updateTerm, isTerm)
        == if t.Failure? then Failure(t.error)
           else if w.Failure? then Failure(w.error)
           else Success([Write(hs[0].guid, t.value)] + w.value)
  {
  }

  /** One more page extends the fetched entities by that page. */
  lemma FetchedStep(search: Search, offset: int, k: nat, page: seq<Header>)
    requires search(offset * k) == Some(page)
    ensures Fetched(search, offset, k + 1) == Fetched(search, offset, k) + page
  {
  }

  /** The entities of fewer pages are a prefix of those of more pages. */
  lemma {:induction false} FetchedPrefix(search: Search, offset: int, m: nat, n: nat)
    requires m <= n
    ensures |Fetched(search, offset, m)| <= |Fetched(search, offset, n)|
    ensures Fetched(search, offset, n)
         == Fetched(search, offset, m) + Fetched(search, offset, n)[|Fetched(search, offset, m)|..]
    decreases n - m
  {
    if m < n {
      FetchedPrefix(search, offset, m, n - 1);
      var fm := Fetched(search, offset, m);
      var prev := Fetched(search, offset, n - 1);
      var page := search(offset * (n - 1)).GetOr([]);
      assert Fetched(search, offset, n) == prev + page;
      assert prev == fm + prev[|fm|..];
      assert (prev + page)[|fm|..] == prev[|fm|..] + page;
    }
  }

  lemma ContinuesExtend(search: Search, offset: int, k: nat)
    requires forall j: nat :: j < k ==> Continues(search(offset * j), offset)
    requires Continues(search(offset * k), offset)
    ensures forall j: nat :: j < k + 1 ==> Continues(search(offset * j), offset)
  {
  }

  /** A null page adds no entities. */
  lemma FetchedNone(search: Search, offset: int, k: nat)
    requires search(offset * k).None?
    ensures Fetched(search, offset, k + 1) == Fetched(search, offset, k)
  {
    assert Fetched(search, offset, k) + [] == Fetched(search, offset, k);
  }

  /** Reading page `k` extends the writes of the pages before it by that
      page's writes, or ends them with that page's failure. */
  lemma PageStep(search: Search, offset: int, k: nat, page: seq<Header>, writes: seq<Write>,
                 termGuid: string, updateTerm: string, isTerm: Meaning -> bool)
    requires search(offset * k) == Some(page)
    requires Writes(Fetched(search, offset, k), termGuid, updateTerm, isTerm) == Success(writes)
    ensures var batch := Writes(page, termGuid, updateTerm, isTerm);
      Writes(Fetched(search, offset, k + 1), termGuid, updateTerm, isTerm)
        == if batch.Success? then Success(writes + batch.value) else Failure(batch.error)
  {
    FetchedStep(search, offset, k, page);
    WritesAppend(Fetched(search, offset, k), page, termGuid, updateTerm, isTerm);
  }

  /** Where the loop returns, the writes of the pages read so far are the
      whole rewrite: either page `k` stops the paging, or its writes fail
      and the failure carries through the later pages. */
  lemma RewriteAt(ms: MeaningsSearch, k: nat, termGuid: string, updateTerm: string)
    requires Stops(ms)
    requires forall j: nat :: j < k ==> Continues(ms.search(ms.offset * j), ms.offset)
    requires !Continues(ms.search(ms.offset * k), ms.offset)
          || Writes(Fetched(ms.search, ms.offset, k + 1), termGuid, updateTerm, ms.isTerm).Failure?
    ensures Writes(Fetched(ms.search, ms.offset, k + 1), termGuid, updateTerm, ms.isTerm) == MeaningsRewrite(ms, termGuid, updateTerm)
  {
    var s := StopPage(ms.search, ms.offset, 0, ms.bound);
    assert k <= s;
    if k < s {
      assert Continues(ms.search(ms.offset * k), ms.offset);
      FetchedPrefix(ms.search, ms.offset, k + 1, s + 1);
      var a := Fetched(ms.search, ms.offset, k + 1);
      WritesFailureAppend(a, Fetched(ms.search, ms.offset, s + 1)[|a|..], termGuid, updateTerm, ms.isTerm);
    }
  }

  /** `updateMeaningsNamesInEntities`: page through the entities that carry
      the term, `offset` at a time, writing each one's meanings text; stop
      at a null page or after a page shorter than `offset`; the first entity
      whose text cannot be built ends the rewrite with its error. `bound` is
      any page index at which the loop stops; it only bounds the loop. */
  method UpdateMeaningsNames(search: Search, offset: int, ghost bound: nat, termGuid: string, updateTerm: string, isTerm: Meaning -> bool)
    returns (r: Result<seq<Write>>, ghost k: nat)
    requires offset > 0
    requires !Continues(search(offset * bound), offset)
    ensures k <= bound && forall j: nat :: j < k ==> Continues(search(offset * j), offset)
    ensures r.Success? ==> FirstStop(search, offset, k)
    ensures r == Writes(Fetched(search, offset, k + 1), termGuid, updateTerm, isTerm)
    ensures r == MeaningsRewrite(MeaningsSearch(search, offset, bound, isTerm), termGuid, updateTerm)
  {
    ghost var ms := MeaningsSearch(search, offset, bound, isTerm);
    var writes: seq<Write> := [];
    var from := 0;
    k := 0;
    while true
      invariant from == offset * k && k <= bound
      invariant forall j: nat :: j < k ==> Continues(search(offset * j), offset)
      invariant Writes(Fetched(search, offset, k), termGuid, updateTerm, isTerm) == Success(writes)
      decreases bound - k
    {
      var page := search(from);
      if page.None? {
        FetchedNone(search, offset, k);
        RewriteAt(ms, k, termGuid, updateTerm);
        r := Success(writes);
        return;
      }
      var batch := Writes(page.value, termGuid, updateTerm, isTerm);
      PageStep(search, offset, k, page.value, writes, termGuid, updateTerm, isTerm);
      if batch.Failure? {
        RewriteAt(ms, k, termGuid, updateTerm);
        r := Failure(batch.error);
        return;
      }
      writes := writes + batch.value;
      if |page.value| < offset {
        RewriteAt(ms, k, termGuid, updateTerm);
        r := Success(writes);
        return;
      }
      assert Continues(search(offset * k), offset);
      assert k != bound;
      ContinuesExtend(search, offset, k);
      from := from + offset;
      assert from == offset * (k + 1);
      k := k + 1;
    }
  }

  // ---------------------------------------------------------------------
  // Update and dispatch

  /** An accepted update: the qualified name the term keeps and the
      meanings-text writes of every entity that carries it. */
  datatype TermUpdate = TermUpdate(qualifiedName: string, writes: seq<Write>)

  /** `processUpdateTerm`: the checks, then the meanings rewrite under the
      term's new name; a failing rewrite fails the update. */
  function ProcessUpdateTerm(o: Oracles, name: Option<string>, stored: StoredTerm, anchor: Option<Anchor>, ms: MeaningsSearch): (r: Result<TermUpdate>)
    requires Stops(ms)
    ensures UpdateChecks(o, name, stored, anchor).Failure? ==> r == Failure(UpdateChecks(o, name, stored, anchor).error)
    ensures r.Success? ==> UpdateChecks(o, name, stored, anchor).Success? && ValidName(o, name)
                           && r.value.qualifiedName == stored.qualifiedName
    ensures var hs := RewrittenEntities(ms);
      UpdateChecks(o, name, stored, anchor).Success? ==>
        (r.Failure? <==> exists i :: 0 <= i < |hs| && !HasMeanings(hs[i]))
    ensures var hs := RewrittenEntities(ms);
      r.Success? && ValidName(o, name) ==>
        && |r.value.writes| == |hs|
        && forall i :: 0 <= i < |hs| ==>
             r.value.writes[i].entityGuid == hs[i].guid
             && Success(r.value.writes[i].meaningsText) == MeaningsTextBy(hs[i].meanings, stored.guid, name.value, ms.isTerm)
  {
    var qualifiedName :- UpdateChecks(o, name, stored, anchor);
    RewriteMeaning(ms, stored.guid, name.value);
    var writes :- MeaningsRewrite(ms, stored.guid, name.value);
    Success(TermUpdate(qualifiedName, writes))
  }

  /** An update that keeps the name never runs the existence query: its
      outcome is the same whatever the query answers. */
  lemma UnchangedNameSkipsExistence(o: Oracles, stored: StoredTerm, anchor: Option<Anchor>, ms: MeaningsSearch,
                                    otherExists: (Option<string>, Option<string>) -> bool)
    requires Stops(ms)
    ensures ProcessUpdateTerm(o, Some(stored.name), stored, anchor, ms)
         == ProcessUpdateTerm(o.(termExists := otherExists), Some(stored.name), stored, anchor, ms)
  {
  }

  /** What preprocessing leaves: the preprocessor's anchor, the qualified
      name the term gets (none for other operations) and the meanings
      writes of an update. */
  datatype Processed = Processed(anchor: Option<Anchor>, qualifiedName: Option<string>, writes: seq<Write>)

  /** `processAttributes`: resolve the anchor first, then run the create or
      update processing; other operations only resolve the anchor. */
  function ProcessAttributes(op: EntityOperation, o: Oracles, name: Option<string>, stored: StoredTerm,
                             current: Option<Anchor>, anchorRef: Option<ObjectId>, lookup: string -> Result<Anchor>,
                             uuid: string, ms: MeaningsSearch): (r: Result<Processed>)
    requires Stops(ms)
    ensures SetAnchor(current, anchorRef, lookup).Failure? ==> r == Failure(SetAnchor(current, anchorRef, lookup).error)
    ensures r.Success? ==> r.value.anchor == SetAnchor(current, anchorRef, lookup).value
    ensures r.Success? && op == CREATE ==> (ProcessCreateTerm(o, name, r.value.anchor, uuid).Success?
                                             && r.value.qualifiedName == Some(ProcessCreateTerm(o, name, r.value.anchor, uuid).value)
                                             && r.value.writes == [])
    ensures op == UPDATE && SetAnchor(current, anchorRef, lookup).Success? ==>
      var u := ProcessUpdateTerm(o, name, stored, SetAnchor(current, anchorRef, lookup).value, ms);
      && (r.Success? <==> u.Success?)
      && (r.Success? ==> r.value.qualifiedName == Some(stored.qualifiedName) && r.value.writes == u.value.writes)
    ensures op != CREATE && op != UPDATE ==> (r.Success? <==> SetAnchor(current, anchorRef, lookup).Success?)
    ensures r.Success? && op != CREATE && op != UPDATE ==> r.value.qualifiedName.None? && r.value.writes == []
  {
    var anchor :- SetAnchor(current, anchorRef, lookup);
    match op
    case CREATE =>
      var qualifiedName :- ProcessCreateTerm(o, name, anchor, uuid);
      Success(Processed(anchor, Some(qualifiedName), []))
    case UPDATE =>
      var update :- ProcessUpdateTerm(o, name, stored, anchor, ms);
      Success(Processed(anchor, Some(update.qualifiedName), update.writes))
    case _ => Success(Processed(anchor, None, []))
  }
}
