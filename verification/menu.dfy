/** The registry side of the menu: the seed list the program starts with and
    the "Add animal" dialogue, which reads a type choice, a name, an age and
    the field of the chosen class, then appends one animal or, for an
    unknown type, leaves the registry alone. */
module Menu {
  import opened Wrappers
  import opened Text
  import opened Animals
  import opened Registry
  import opened Input

  /** What the dialogue collected. The line fields are raw `ReadLine()`
      results (`None` at the end of input); `age` and `wingspan` are what
      `ReadInt` returned and `indoor` what `ReadYesNo` returned. A field the
      chosen type does not prompt for is ignored. */
  datatype AddAnswers = AddAnswers(
    typeLine: Option<string>,
    nameLine: Option<string>,
    age: int,
    breedLine: Option<string>,
    indoor: bool,
    wingspan: int)

  function TypeChoice(ans: AddAnswers): string {
    Trim(LineOrEmpty(ans.typeLine))
  }

  function NameOf(ans: AddAnswers): string {
    Trim(LineOrEmpty(ans.nameLine))
  }

  /** The class each menu key selects; any other key is an unknown type. */
  function ChosenKind(choice: string): (r: Option<Kind>)
    ensures r.Some? <==> choice in {"1", "2", "3"}
  {
    if choice == "1" then Some(DogKind)
    else if choice == "2" then Some(CatKind)
    else if choice == "3" then Some(BirdKind)
    else None
  }

  /** The breed exactly as the dialogue stores it: the line, never absent. */
  function BreedAsWritten(line: Option<string>): (r: Option<string>)
    ensures r.Some?
  {
    Some(LineOrEmpty(line))
  }

  /** The breed as the optional prompt means it: a blank answer is no breed. */
  function Breed(line: Option<string>): (r: Option<string>)
    ensures r.None? <==> AllWhiteSpace(LineOrEmpty(line))
    ensures r.Some? ==> r.value == LineOrEmpty(line)
  {
    var s := LineOrEmpty(line);
    if AllWhiteSpace(s) then None else Some(s)
  }

  /** The animal the type switch constructs, given the breed a dog gets. */
  function Created(ans: AddAnswers, breed: Option<string>): (r: Option<Animal>)
    ensures r.Some? <==> ChosenKind(TypeChoice(ans)).Some?
    ensures r.Some? ==> && KindOf(r.value) == ChosenKind(TypeChoice(ans)).value
                        && r.value.name == NameOf(ans)
                        && r.value.age == ans.age
    ensures r.Some? && r.value.Dog? ==> r.value.breed == breed
    ensures r.Some? && r.value.Cat? ==> r.value.isIndoor == ans.indoor
    ensures r.Some? && r.value.Bird? ==> r.value.wingspanCm == ans.wingspan
  {
    var choice := TypeChoice(ans);
    if choice == "1" then Some(Dog(NameOf(ans), ans.age, breed))
    else if choice == "2" then Some(Cat(NameOf(ans), ans.age, ans.indoor))
    else if choice == "3" then Some(Bird(NameOf(ans), ans.age, ans.wingspan))
    else None
  }

  /** The dialogue's effect on the registry once the breed a dog gets is
      fixed: a known type appends exactly one animal of that class, with the
      trimmed name, the accepted age and the field its prompt collected, and
      keeps every earlier animal in place; an unknown type changes nothing. */
  function AddWithBreed(xs: seq<Animal>, ans: AddAnswers, breed: Option<string>): (r: seq<Animal>)
    ensures ChosenKind(TypeChoice(ans)).None? <==> r == xs
    ensures ChosenKind(TypeChoice(ans)).Some? <==> |r| == |xs| + 1
    ensures |r| == |xs| + 1 ==>
      && r[..|xs|] == xs
      && KindOf(r[|xs|]) == ChosenKind(TypeChoice(ans)).value
      && r[|xs|].name == NameOf(ans)
      && r[|xs|].age == ans.age
      && (r[|xs|].Dog? ==> r[|xs|].breed == breed)
      && (r[|xs|].Cat? ==> r[|xs|].isIndoor == ans.indoor)
      && (r[|xs|].Bird? ==> r[|xs|].wingspanCm == ans.wingspan)
  {
    match Created(ans, breed)
    case Some(a) => Add(xs, a)
    case None => xs
  }

  /** `AddAnimal` as the program does it, storing the breed line verbatim. */
  function AddAnimalAsWritten(xs: seq<Animal>, ans: AddAnswers): (r: seq<Animal>)
    ensures ChosenKind(TypeChoice(ans)).None? <==> r == xs
    ensures ChosenKind(TypeChoice(ans)).Some? <==> |r| == |xs| + 1
    ensures |r| == |xs| + 1 ==>
      && r[..|xs|] == xs
      && KindOf(r[|xs|]) == ChosenKind(TypeChoice(ans)).value
      && r[|xs|].name == NameOf(ans)
      && r[|xs|].age == ans.age
      && (r[|xs|].Dog? ==> r[|xs|].breed == BreedAsWritten(ans.breedLine))
      && (r[|xs|].Cat? ==> r[|xs|].isIndoor == ans.indoor)
      && (r[|xs|].Bird? ==> r[|xs|].wingspanCm == ans.wingspan)
  {
    AddWithBreed(xs, ans, BreedAsWritten(ans.breedLine))
  }

  /** `AddAnimal` with a blank breed answer stored as no breed; otherwise
      the same dialogue as `AddAnimalAsWritten`. */
  function AddAnimal(xs: seq<Animal>, ans: AddAnswers): (r: seq<Animal>)
    ensures ChosenKind(TypeChoice(ans)).None? <==> r == xs
    ensures ChosenKind(TypeChoice(ans)).Some? <==> |r| == |xs| + 1
    ensures |r| == |xs| + 1 ==>
      && r[..|xs|] == xs
      && KindOf(r[|xs|]) == ChosenKind(TypeChoice(ans)).value
      && r[|xs|].name == NameOf(ans)
      && r[|xs|].age == ans.age
      && (r[|xs|].Dog? ==> r[|xs|].breed == Breed(ans.breedLine))
      && (r[|xs|].Cat? ==> r[|xs|].isIndoor == ans.indoor)
      && (r[|xs|].Bird? ==> r[|xs|].wingspanCm == ans.wingspan)
  {
    AddWithBreed(xs, ans, Breed(ans.breedLine))
  }

  /** The correction changes nothing except a dog added with a blank breed
      answer: for every other answer the two dialogues agree. */
  lemma AsWrittenAgreesUnlessBlankBreed(xs: seq<Animal>, ans: AddAnswers)
    ensures AddAnimalAsWritten(xs, ans) == AddAnimal(xs, ans)
        <==> TypeChoice(ans) != "1" || !AllWhiteSpace(LineOrEmpty(ans.breedLine))
  {
    if TypeChoice(ans) == "1" && AllWhiteSpace(LineOrEmpty(ans.breedLine)) {
      assert AddAnimalAsWritten(xs, ans)[|xs|].breed != AddAnimal(xs, ans)[|xs|].breed;
    }
  }

  /** The registry invariant the input rules establish: every age lies in
      [0, 100] and every bird's wingspan in [5, 300]. */
  ghost predicate WellFormed(xs: seq<Animal>) {
    forall i :: 0 <= i < |xs| ==>
      && InRange(xs[i].age, 0, 100)
      && (xs[i].Bird? ==> InRange(xs[i].wingspanCm, 5, 300))
  }

  /** When the age is what one `ReadInt(…, 0, 100)` attempt accepted from the
      parse outcome `ageParsed`, and a bird's wingspan what one
      `ReadInt(…, 5, 300)` attempt accepted from `spanParsed`, the dialogue
      keeps the registry well formed, whatever breed a dog gets. */
  lemma AddWithBreedKeepsWellFormed(xs: seq<Animal>, ans: AddAnswers, breed: Option<string>,
                                    ageParsed: Option<int>, spanParsed: Option<int>)
    requires WellFormed(xs)
    requires AcceptInt(ageParsed, 0, 100) == Some(ans.age)
    requires TypeChoice(ans) == "3" ==> AcceptInt(spanParsed, 5, 300) == Some(ans.wingspan)
    ensures WellFormed(AddWithBreed(xs, ans, breed))
  {
    var r := AddWithBreed(xs, ans, breed);
    if |r| == |xs| + 1 {
      forall i | 0 <= i < |r|
        ensures InRange(r[i].age, 0, 100) && (r[i].Bird? ==> InRange(r[i].wingspanCm, 5, 300))
      {
        if i < |xs| {
          assert r[i] == r[..|xs|][i] == xs[i];
        }
      }
    }
  }

  /** Menu-added animals, as the program adds them, keep every age in
      [0, 100] and every wingspan in [5, 300]. */
  lemma AddAnimalAsWrittenKeepsWellFormed(xs: seq<Animal>, ans: AddAnswers,
                                          ageParsed: Option<int>, spanParsed: Option<int>)
    requires WellFormed(xs)
    requires AcceptInt(ageParsed, 0, 100) == Some(ans.age)
    requires TypeChoice(ans) == "3" ==> AcceptInt(spanParsed, 5, 300) == Some(ans.wingspan)
    ensures WellFormed(AddAnimalAsWritten(xs, ans))
  {
    AddWithBreedKeepsWellFormed(xs, ans, BreedAsWritten(ans.breedLine), ageParsed, spanParsed);
  }

  lemma AddAnimalKeepsWellFormed(xs: seq<Animal>, ans: AddAnswers,
                                 ageParsed: Option<int>, spanParsed: Option<int>)
    requires WellFormed(xs)
    requires AcceptInt(ageParsed, 0, 100) == Some(ans.age)
    requires TypeChoice(ans) == "3" ==> AcceptInt(spanParsed, 5, 300) == Some(ans.wingspan)
    ensures WellFormed(AddAnimal(xs, ans))
  {
    AddWithBreedKeepsWellFormed(xs, ans, Breed(ans.breedLine), ageParsed, spanParsed);
  }

  /** The flyers after an add are the old flyers, followed by the new animal
      exactly when type 3 (a bird) was chosen. */
  lemma FlyersAfterAddWithBreed(xs: seq<Animal>, ans: AddAnswers, breed: Option<string>)
    ensures TypeChoice(ans) == "3" ==>
      Flyers(AddWithBreed(xs, ans, breed)) == Flyers(xs) + [AddWithBreed(xs, ans, breed)[|xs|]]
    ensures TypeChoice(ans) != "3" ==> Flyers(AddWithBreed(xs, ans, breed)) == Flyers(xs)
  {
    match Created(ans, breed)
    case Some(a) => FlyersAfterAdd(xs, a);
    case None =>
  }

  lemma FlyersAfterAddAnimalAsWritten(xs: seq<Animal>, ans: AddAnswers)
    ensures TypeChoice(ans) == "3" ==>
      Flyers(AddAnimalAsWritten(xs, ans)) == Flyers(xs) + [AddAnimalAsWritten(xs, ans)[|xs|]]
    ensures TypeChoice(ans) != "3" ==> Flyers(AddAnimalAsWritten(xs, ans)) == Flyers(xs)
  {
    FlyersAfterAddWithBreed(xs, ans, BreedAsWritten(ans.breedLine));
  }

  lemma FlyersAfterAddAnimal(xs: seq<Animal>, ans: AddAnswers)
    ensures TypeChoice(ans) == "3" ==> Flyers(AddAnimal(xs, ans)) == Flyers(xs) + [AddAnimal(xs, ans)[|xs|]]
    ensures TypeChoice(ans) != "3" ==> Flyers(AddAnimal(xs, ans)) == Flyers(xs)
  {
    FlyersAfterAddWithBreed(xs, ans, Breed(ans.breedLine));
  }

  /** As written, a dog added through the menu always has a breed, so a
      blank answer shows "Breed=" with nothing after it and the em dash for
      an absent breed is never printed. */
  lemma BlankBreedAsWritten(xs: seq<Animal>, ans: AddAnswers)
    requires TypeChoice(ans) == "1" && ans.breedLine == Some("")
    ensures Extra(AddAnimalAsWritten(xs, ans)[|xs|]) == "Breed="
    ensures Extra(AddAnimalAsWritten(xs, ans)[|xs|]) != "Breed=" + NoBreed
  {
    var a := AddAnimalAsWritten(xs, ans)[|xs|];
    assert a.breed == Some("");
    assert Extra(a) == "Breed=" + "";
  }

  /** With the breed read as intended, a blank answer shows the em dash and
      any other answer shows the breed as typed. */
  lemma BlankBreedShowsPlaceholder(xs: seq<Animal>, ans: AddAnswers)
    requires TypeChoice(ans) == "1"
    ensures AllWhiteSpace(LineOrEmpty(ans.breedLine)) ==> Extra(AddAnimal(xs, ans)[|xs|]) == "Breed=" + NoBreed
    ensures !AllWhiteSpace(LineOrEmpty(ans.breedLine)) ==>
      Extra(AddAnimal(xs, ans)[|xs|]) == "Breed=" + LineOrEmpty(ans.breedLine)
  {
    var a := AddAnimal(xs, ans)[|xs|];
    assert a.Dog?;
    DogExtraShowsBreed(a);
  }

  /** The list `Main` starts with. */
  const Seed: seq<Animal> := [
    Dog("Rex", 3, Some("Shepherd")),
    Cat("Milo", 2, true),
    Bird("Kiwi", 1, 28)
  ]

  lemma SeedWellFormed()
    ensures WellFormed(Seed)
  {
  }

  /** Of the seed list only Kiwi the bird can fly. */
  lemma SeedFlyers()
    ensures Flyers(Seed) == [Seed[2]]
  {
    assert Seed == [Seed[0], Seed[1]] + [Seed[2]];
    FlyersConcat([Seed[0], Seed[1]], [Seed[2]]);
    assert Flyers([Seed[1]]) == [] + Flyers([]);
    assert Flyers([Seed[0], Seed[1]]) == [] + Flyers([Seed[1]]);
  }

  /** Kiwi's flight message names her and her 28 cm wingspan. */
  lemma SeedFly()
    ensures Fly(Seed[2]) == "Kiwi" + " spreads " + "28" + "cm wings and takes off! " + Dove
  {
    Render28();
  }

  /** Kiwi's Extra column shows her 28 cm wingspan. */
  lemma SeedWingspan()
    ensures Extra(Seed[2]) == "Wingspan=28cm"
  {
    Render28();
  }

  lemma Render28()
    ensures IntToString(28) == "28"
  {
    assert NatToString(2) == "2";
    assert NatToString(28) == NatToString(2) + [DigitChar(8)];
  }

  /** The seed dog and cat show their breed and indoor flag. */
  lemma SeedExtras()
    ensures Extra(Seed[0]) == "Breed=Shepherd"
    ensures Extra(Seed[1]) == "Indoor=True"
  {
  }
}
