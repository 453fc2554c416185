/** Name extraction from a transaction description (app.py:121-150) and the
    three-stage fallback that `match_users` runs over it (app.py:60-70).
    The two pretrained taggers are oracles: functions from the description
    to the entities they report, or to the text of the exception they raise. */
module Extraction {
  import opened Outcomes
  import opened Text

  /** A value read from a CSV column: a string, or a value of some other
      Python type (pandas reads an empty cell as the float NaN). */
  datatype Cell = Str(s: string) | NonStr(typeName: string)

  /** The exceptions raised on the matching path. */
  datatype Exception =
    | HttpException(status: nat, detail: string)
    | RuntimeError(message: string)

  const FromMarker: string := "from "
  const ForDeelMarker: string := " for deel"

  /** The text of the AttributeError that `.lower()` raises on a value of
      type `typeName`. */
  function NoLowerAttribute(typeName: string): string
  {
    "'" + typeName + "' object has no attribute 'lower'"
  }

  function ExtractNameError(typeName: string): Exception
  {
    RuntimeError("Failed to extract name from description: " + NoLowerAttribute(typeName))
  }

  // ---------------------------------------------------------------------
  // Stage 1: the "from ... for deel" rule (app.py:121-130)
  // ---------------------------------------------------------------------

  /** `extract_name`: search the lower-cased description for the first
      "from " and the first " for deel", and slice the ORIGINAL description
      between the end of the one and the start of the other. */
  function ExtractName(description: Cell): (r: Result<string, Exception>)
    ensures r.Failure? <==> description.NonStr?
    ensures description.NonStr? ==> r.error == ExtractNameError(description.typeName)
    ensures r.Success? ==> IsSubstring(r.value, description.s)
    ensures r.Success? && r.value != "" ==>
              Contains(Lower(description.s), FromMarker) && Contains(Lower(description.s), ForDeelMarker)
  {
    match description
    case NonStr(t) => Failure(ExtractNameError(t))
    case Str(d) =>
      var lowered := Lower(d);
      if Contains(lowered, FromMarker) && Contains(lowered, ForDeelMarker) then
        var start := Find(lowered, FromMarker) + |FromMarker|;
        var end := Find(lowered, ForDeelMarker);
        Success(PySlice(d, start, end))
      else
        assert OccursAt(d, "", 0);
        Success("")
  }

  /** Without both markers (in any letter case) the rule finds nothing. */
  lemma ExtractNameWithoutMarkers(d: string)
    requires !Contains(Lower(d), FromMarker) || !Contains(Lower(d), ForDeelMarker)
    ensures ExtractName(Str(d)) == Success("")
  {
  }

  /** With both markers, the name is the original-case text from the end of
      the first "from " up to the first " for deel", and it is empty when
      that " for deel" starts before the "from " ends. */
  lemma ExtractNameBetweenFirstMarkers(d: string, i: int, j: int)
    requires IsFirstOccurrence(Lower(d), FromMarker, i)
    requires IsFirstOccurrence(Lower(d), ForDeelMarker, j)
    ensures i + |FromMarker| <= j ==> ExtractName(Str(d)) == Success(d[i + |FromMarker|..j])
    ensures i + |FromMarker| <= j ==> Lower(ExtractName(Str(d)).value) == Lower(d)[i + |FromMarker|..j]
    ensures j < i + |FromMarker| ==> ExtractName(Str(d)) == Success("")
  {
    var lowered := Lower(d);
    assert Contains(lowered, FromMarker);
    assert Contains(lowered, ForDeelMarker);
    FirstOccurrenceIsUnique(lowered, FromMarker, i, Find(lowered, FromMarker));
    FirstOccurrenceIsUnique(lowered, ForDeelMarker, j, Find(lowered, ForDeelMarker));
    if i + |FromMarker| <= j {
      LowerSlice(d, i + |FromMarker|, j);
    }
  }

  /** A marker written in any letter case at offset `i` of `d` is found at
      offset `i` of the lower-cased copy. */
  lemma MarkerFoundAt(d: string, i: nat, m: string, marker: string)
    requires i + |m| <= |d| && d[i..i + |m|] == m && Lower(m) == marker
    ensures OccursAt(Lower(d), marker, i)
  {
    LowerSlice(d, i, i + |m|);
  }

  /** A description of the form prefix, "from " (any case), name,
      " for deel" (any case), suffix yields exactly the name with its own
      capitalisation, provided no earlier "from " or " for deel" occurs. */
  lemma ExtractsMarkedName(d: string, prefix: string, m1: string, name: string, m2: string, suffix: string)
    requires d == prefix + m1 + name + m2 + suffix
    requires Lower(m1) == FromMarker && Lower(m2) == ForDeelMarker
    requires forall k :: 0 <= k < |prefix| ==> !OccursAt(Lower(d), FromMarker, k)
    requires forall k :: 0 <= k < |prefix| + |m1| + |name| ==> !OccursAt(Lower(d), ForDeelMarker, k)
    ensures ExtractName(Str(d)) == Success(name)
  {
    var i := |prefix|;
    var j := |prefix| + |m1| + |name|;
    FivePieces(prefix, m1, name, m2, suffix);
    assert |m1| == |FromMarker|;
    MarkerFoundAt(d, i, m1, FromMarker);
    MarkerFoundAt(d, j, m2, ForDeelMarker);
    assert IsFirstOccurrence(Lower(d), FromMarker, i);
    assert IsFirstOccurrence(Lower(d), ForDeelMarker, j);
    ExtractNameBetweenFirstMarkers(d, i, j);
    assert d[i + |FromMarker|..j] == name;
  }

  /** The offsets of the five pieces of `prefix + m1 + name + m2 + suffix`. */
  lemma FivePieces(prefix: string, m1: string, name: string, m2: string, suffix: string)
    ensures var d, i, j := prefix + m1 + name + m2 + suffix, |prefix|, |prefix| + |m1| + |name|;
            && d[i..i + |m1|] == m1
            && d[i + |m1|..j] == name
            && d[j..j + |m2|] == m2
  {
    var d := prefix + m1 + name + m2 + suffix;
    var i, j := |prefix|, |prefix| + |m1| + |name|;
    assert forall k :: 0 <= k < |m1| ==> d[i + k] == m1[k];
    assert forall k :: 0 <= k < |name| ==> d[i + |m1| + k] == name[k];
    assert forall k :: 0 <= k < |m2| ==> d[j + k] == m2[k];
  }

  /** `pat` cannot start at `i` when the text there disagrees with it at
      some offset `o` of the pattern. */
  lemma NotAtMismatch(s: string, pat: string, i: nat, o: nat)
    requires o < |pat| && i + o < |s| && s[i + o] != pat[o]
    ensures !OccursAt(s, pat, i)
  {
    if i + |pat| <= |s| {
      assert s[i..i + |pat|][o] == s[i + o];
    }
  }

  const OverlappingMarkers: string := "from for deel"

  /** In "from for deel" the first "from " starts at 0 and the first
      " for deel" at 4, inside it. */
  lemma FirstMarkersOverlap()
    ensures IsFirstOccurrence(OverlappingMarkers, FromMarker, 0)
    ensures IsFirstOccurrence(OverlappingMarkers, ForDeelMarker, 4)
  {
    var t := OverlappingMarkers;
    assert t[0..5] == FromMarker;
    assert t[4..13] == ForDeelMarker;
    NotAtMismatch(t, ForDeelMarker, 0, 0);
    NotAtMismatch(t, ForDeelMarker, 1, 0);
    NotAtMismatch(t, ForDeelMarker, 2, 0);
    NotAtMismatch(t, ForDeelMarker, 3, 0);
  }

  /** Both markers present but overlapping: in "from for deel", in any
      letter case, the space that ends "from " also starts " for deel", so
      the slice runs backwards and the rule finds nothing. */
  lemma OverlappingMarkersGiveNoName(d: string)
    requires Lower(d) == OverlappingMarkers
    ensures ExtractName(Str(d)) == Success("")
  {
    FirstMarkersOverlap();
    ExtractNameBetweenFirstMarkers(d, 0, 4);
  }

  /** "Payment from John Smith for deel services", and its lower-cased form. */
  const Payment: string := "Payment " + "from " + "John Smith" + " for deel" + " services"
  const PaymentLowered: string := "payment " + "from " + "john smith" + " for deel" + " services"

  /** Lower-casing the usual description, one piece at a time. */
  lemma LowerOfPayment()
    ensures Lower("from ") == FromMarker && Lower(" for deel") == ForDeelMarker
    ensures Lower(Payment) == PaymentLowered
  {
    assert Lower("Payment ") == "payment " by {
      forall k | 0 <= k < 8 ensures Lower("Payment ")[k] == "payment "[k] { }
    }
    assert Lower("from ") == "from " by {
      forall k | 0 <= k < 5 ensures Lower("from ")[k] == "from "[k] { }
    }
    assert Lower("John Smith") == "john smith" by {
      forall k | 0 <= k < 10 ensures Lower("John Smith")[k] == "john smith"[k] { }
    }
    assert Lower(" for deel") == " for deel" by {
      forall k | 0 <= k < 9 ensures Lower(" for deel")[k] == " for deel"[k] { }
    }
    assert Lower(" services") == " services" by {
      forall k | 0 <= k < 9 ensures Lower(" services")[k] == " services"[k] { }
    }
    LowerDistributes("Payment ", "from ");
    LowerDistributes("Payment " + "from ", "John Smith");
    LowerDistributes("Payment " + "from " + "John Smith", " for deel");
    LowerDistributes("Payment " + "from " + "John Smith" + " for deel", " services");
  }

  /** No "from " before offset 8 and no " for deel" before offset 23 of the
      lower-cased usual description. */
  lemma NoEarlierMarkersInPayment()
    ensures forall k :: 0 <= k < 8 ==> !OccursAt(PaymentLowered, FromMarker, k)
    ensures forall k :: 0 <= k < 23 ==> !OccursAt(PaymentLowered, ForDeelMarker, k)
  {
    var l := PaymentLowered;
    forall k | 0 <= k < 8
      ensures !OccursAt(l, FromMarker, k)
    {
      NotAtMismatch(l, FromMarker, k, 0);
    }
    forall k | 0 <= k < 23
      ensures !OccursAt(l, ForDeelMarker, k)
    {
      if k == 7 {
        NotAtMismatch(l, ForDeelMarker, k, 2);
      } else if k == 12 || k == 17 {
        NotAtMismatch(l, ForDeelMarker, k, 1);
      } else {
        NotAtMismatch(l, ForDeelMarker, k, 0);
      }
    }
  }

  /** The usual description: the rule finds "John Smith" in its own
      capitalisation. */
  lemma PaymentFromJohnSmith()
    ensures ExtractName(Str(Payment)) == Success("John Smith")
  {
    LowerOfPayment();
    NoEarlierMarkersInPayment();
    ExtractsMarkedName(Payment, "Payment ", "from ", "John Smith", " for deel", " services");
  }

  // ---------------------------------------------------------------------
  // Stage 2: the statistical tagger (app.py:133-141)
  // ---------------------------------------------------------------------

  /** An entity the statistical tagger reports: its text and its label. */
  datatype Entity = Entity(text: string, category: string)

  const PersonLabel: string := "PERSON"

  /** Entity `k` is the first one, in document order, labelled PERSON. */
  ghost predicate IsFirstPerson(ents: seq<Entity>, k: int)
  {
    0 <= k < |ents| && ents[k].category == PersonLabel &&
    forall j :: 0 <= j < k ==> ents[j].category != PersonLabel
  }

  /** The loop of `extract_name_spacy`: the text of the first PERSON entity,
      or "" when there is none. */
  function FirstPersonText(ents: seq<Entity>): (r: string)
    ensures forall k :: IsFirstPerson(ents, k) ==> r == ents[k].text
    ensures (forall k :: 0 <= k < |ents| ==> ents[k].category != PersonLabel) ==> r == ""
    decreases |ents|
  {
    if |ents| == 0 then ""
    else if ents[0].category == PersonLabel then ents[0].text
    else
      assert forall k :: IsFirstPerson(ents, k) ==> IsFirstPerson(ents[1..], k - 1);
      FirstPersonText(ents[1..])
  }

  /** The tagger's entities for a description, or the text of the exception
      it raised. */
  type EntityTagger = string -> Result<seq<Entity>, string>

  /** `extract_name_spacy`: a tagger failure is re-raised as a RuntimeError
      that carries its text. */
  function SpacyStage(tagger: EntityTagger, description: string): (r: Result<string, Exception>)
    ensures r.Failure? <==> tagger(description).Failure?
    ensures r.Failure? ==>
              r.error == RuntimeError("Failed to extract name using spaCy: " + tagger(description).error)
    ensures r.Success? ==> r.value == FirstPersonText(tagger(description).value)
  {
    match tagger(description)
    case Failure(e) => Failure(RuntimeError("Failed to extract name using spaCy: " + e))
    case Success(ents) => Success(FirstPersonText(ents))
  }

  // ---------------------------------------------------------------------
  // Stage 3: the token-level transformer tagger (app.py:143-150)
  // ---------------------------------------------------------------------

  /** A token the transformer pipeline reports: the word and its tag. */
  datatype Token = Token(word: string, entity: string)

  predicate IsPersonTag(tag: string)
  {
    tag == "B-PER" || tag == "I-PER"
  }

  /** The list comprehension of `extract_name_distilbert`: the words tagged
      B-PER or I-PER, in order. */
  function PersonWords(tokens: seq<Token>): (r: seq<string>)
    ensures |r| <= |tokens|
    ensures r == [] <==> forall k :: 0 <= k < |tokens| ==> !IsPersonTag(tokens[k].entity)
    ensures forall w :: w in r ==>
              exists k :: 0 <= k < |tokens| && IsPersonTag(tokens[k].entity) && tokens[k].word == w
    decreases |tokens|
  {
    if |tokens| == 0 then []
    else
      var rest := PersonWords(tokens[1..]);
      assert forall k :: 1 <= k < |tokens| ==> tokens[1..][k - 1] == tokens[k];
      if IsPersonTag(tokens[0].entity) then [tokens[0].word] + rest else rest
  }

  /** Filtering distributes over concatenation: the words of a longer token
      sequence are the words of its parts, in order. */
  lemma {:induction false} PersonWordsAppend(a: seq<Token>, b: seq<Token>)
    ensures PersonWords(a + b) == PersonWords(a) + PersonWords(b)
    decreases |a|
  {
    if |a| > 0 {
      assert (a + b)[0] == a[0] && (a + b)[1..] == a[1..] + b;
      PersonWordsAppend(a[1..], b);
      if IsPersonTag(a[0].entity) {
        assert [a[0].word] + (PersonWords(a[1..]) + PersonWords(b))
            == ([a[0].word] + PersonWords(a[1..])) + PersonWords(b);
      }
    } else {
      assert a + b == b;
    }
  }

  /** The tagger's tokens for a description, or the text of the exception it
      raised. */
  type TokenTagger = string -> Result<seq<Token>, string>

  /** `extract_name_distilbert`: the person words joined by single spaces. */
  function TransformerStage(tagger: TokenTagger, description: string): (r: Result<string, Exception>)
    ensures r.Failure? <==> tagger(description).Failure?
    ensures r.Failure? ==>
              r.error == RuntimeError("Failed to extract name using DistilBERT: " + tagger(description).error)
    ensures r.Success? ==>
              (r.value == "" <==> PersonWords(tagger(description).value) in {[], [""]})
  {
    match tagger(description)
    case Failure(e) => Failure(RuntimeError("Failed to extract name using DistilBERT: " + e))
    case Success(tokens) =>
      JoinIsEmpty(PersonWords(tokens), " ");
      Success(Join(PersonWords(tokens), " "))
  }

  /** Nothing is lost in the join: when no person word holds a space,
      splitting the stage's name on spaces gives back exactly the words. */
  lemma TransformerStageRoundTrip(tagger: TokenTagger, description: string)
    requires tagger(description).Success?
    requires PersonWords(tagger(description).value) != []
    requires forall w :: w in PersonWords(tagger(description).value) ==> ' ' !in w
    ensures Split(TransformerStage(tagger, description).value, ' ') == PersonWords(tagger(description).value)
  {
    SplitJoinRoundTrip(PersonWords(tagger(description).value), ' ');
  }

  // ---------------------------------------------------------------------
  // The fallback chain (app.py:60-70)
  // ---------------------------------------------------------------------

  const NameNotFound: string := "User name not found in transaction description"

  /** The name `match_users` goes on with: the rule first, then the
      statistical tagger, then the transformer tagger, each consulted only
      when everything before it gave "". No name at all raises 404; an
      exception in any stage propagates. */
  function ExtractNameChain(description: Cell, spacy: EntityTagger, ner: TokenTagger): (r: Result<string, Exception>)
    ensures r.Success? ==> r.value != ""
    ensures description.NonStr? ==> r == ExtractName(description)
  {
    match ExtractName(description)
    case Failure(e) => Failure(e)
    case Success(byRule) =>
      if byRule != "" then Success(byRule)
      else
        match SpacyStage(spacy, description.s)
        case Failure(e) => Failure(e)
        case Success(bySpacy) =>
          if bySpacy != "" then Success(bySpacy)
          else
            match TransformerStage(ner, description.s)
            case Failure(e) => Failure(e)
            case Success(byNer) =>
              if byNer != "" then Success(byNer)
              else Failure(HttpException(404, NameNotFound))
  }

  /** A name found by the rule is final: neither tagger is consulted, so
      their answers (or failures) make no difference. */
  lemma ChainStopsAtRule(d: string, spacy1: EntityTagger, ner1: TokenTagger, spacy2: EntityTagger, ner2: TokenTagger)
    requires ExtractName(Str(d)).value != ""
    ensures ExtractNameChain(Str(d), spacy1, ner1) == ExtractName(Str(d))
    ensures ExtractNameChain(Str(d), spacy1, ner1) == ExtractNameChain(Str(d), spacy2, ner2)
  {
  }

  /** The statistical tagger is consulted only when the rule found nothing,
      and a name it finds is final: the transformer is not consulted. */
  lemma ChainStopsAtSpacy(d: string, spacy: EntityTagger, ner1: TokenTagger, ner2: TokenTagger)
    requires ExtractName(Str(d)).value == ""
    requires spacy(d).Success? && FirstPersonText(spacy(d).value) != ""
    ensures ExtractNameChain(Str(d), spacy, ner1) == Success(FirstPersonText(spacy(d).value))
    ensures ExtractNameChain(Str(d), spacy, ner1) == ExtractNameChain(Str(d), spacy, ner2)
  {
  }

  /** A statistical-tagger failure after an empty rule result is final: it
      propagates as the stage's RuntimeError and the transformer is not
      consulted. */
  lemma ChainStopsAtSpacyFailure(d: string, spacy: EntityTagger, ner1: TokenTagger, ner2: TokenTagger)
    requires ExtractName(Str(d)).value == ""
    requires spacy(d).Failure?
    ensures ExtractNameChain(Str(d), spacy, ner1)
            == Failure(RuntimeError("Failed to extract name using spaCy: " + spacy(d).error))
    ensures ExtractNameChain(Str(d), spacy, ner1) == ExtractNameChain(Str(d), spacy, ner2)
  {
  }

  /** The transformer tagger decides only when both earlier stages gave "". */
  lemma ChainFallsToTransformer(d: string, spacy: EntityTagger, ner: TokenTagger)
    requires ExtractName(Str(d)).value == ""
    requires spacy(d).Success? && FirstPersonText(spacy(d).value) == ""
    ensures ExtractNameChain(Str(d), spacy, ner) ==
              match TransformerStage(ner, d)
              case Failure(e) => Failure(e)
              case Success(n) => if n != "" then Success(n) else Failure(HttpException(404, NameNotFound))
  {
  }
}
