/** The animal hierarchy: the abstract `Animal` base (name, age), its three
    concrete classes and the `IFly` capability that only `Bird` implements.
    The class hierarchy is closed, so it becomes one datatype and each
    virtual member becomes a function that matches on the constructor. */
module Animals {
  import opened Wrappers
  import opened Text

  /** The constructors carry the base fields first and then the fields of
      their own class; `breed` is C#'s nullable `string?`. */
  datatype Animal =
    | Dog(name: string, age: int, breed: Option<string>)
    | Cat(name: string, age: int, isIndoor: bool)
    | Bird(name: string, age: int, wingspanCm: int)

  /** The run-time type of an animal, with everything else forgotten. */
  datatype Kind = DogKind | CatKind | BirdKind

  function KindOf(a: Animal): Kind {
    match a
    case Dog(_, _, _) => DogKind
    case Cat(_, _, _) => CatKind
    case Bird(_, _, _) => BirdKind
  }

  /** The base class's `Move`, which every concrete class overrides. */
  const DefaultMove: string := "moves around"

  function Speak(a: Animal): string {
    match a
    case Dog(_, _, _) => "Woof!"
    case Cat(_, _, _) => "Meow~"
    case Bird(_, _, _) => "Chirp!"
  }

  function Move(a: Animal): string {
    match a
    case Dog(_, _, _) => "runs on four legs"
    case Cat(_, _, _) => "sneaks gracefully"
    case Bird(_, _, _) => "hops and flutters"
  }

  /** Whether the animal implements `IFly`: only the `Bird` class does. */
  predicate CanFly(a: Animal) {
    a.Bird?
  }

  /** The dove emoji with its emoji presentation selector. */
  const Dove: string := "\U{1F54A}\U{FE0F}"

  /** `Bird.Fly()`, callable only on animals that implement `IFly`. */
  function Fly(a: Animal): (r: string)
    requires CanFly(a)
    ensures StartsWith(r, a.name + " spreads ")
  {
    a.name + " spreads " + IntToString(a.wingspanCm) + "cm wings and takes off! " + Dove
  }

  /** `GetType().Name`: the class name of the animal. */
  function TagName(a: Animal): string {
    match KindOf(a)
    case DogKind => "Dog"
    case CatKind => "Cat"
    case BirdKind => "Bird"
  }

  /** `Animal.ToString()`: class name, name and age. */
  function Label(a: Animal): (r: string)
    ensures StartsWith(r, TagName(a) + " " + a.name + ", Age ")
  {
    TagName(a) + " " + a.name + ", Age " + IntToString(a.age)
  }

  /** `ToString` reveals the age: two animals of the same class and name
      have the same label exactly when their ages agree. */
  lemma LabelDeterminesAge(a: Animal, b: Animal)
    requires KindOf(a) == KindOf(b) && a.name == b.name
    ensures Label(a) == Label(b) <==> a.age == b.age
  {
    if Label(a) == Label(b) {
      var p := TagName(a) + " " + a.name + ", Age ";
      assert TagName(a) == TagName(b);
      var ra, rb := IntToString(a.age), IntToString(b.age);
      assert Label(a) == p + ra && Label(b) == p + rb;
      assert ra == Label(a)[|p|..] == Label(b)[|p|..] == rb;
      IntToStringInjective(a.age, b.age);
    }
  }

  /** The em dash printed for a dog without a breed. */
  const NoBreed: string := "\U{2014}"

  /** The fallback arm of the listing's type switch, taken by no class. */
  const NoExtra: string := "-"

  /** The "Extra" column of the animal listing: the field that only this
      class has, rendered with its name. */
  function Extra(a: Animal): string {
    match a
    case Dog(_, _, breed) => "Breed=" + breed.GetOr(NoBreed)
    case Cat(_, _, indoor) => "Indoor=" + BoolToString(indoor)
    case Bird(_, _, span) => "Wingspan=" + IntToString(span) + "cm"
  }

  /** Speaking depends on the class alone: two animals say the same thing
      exactly when they are of the same class, whatever their fields. */
  lemma SpeakIdentifiesKind(a: Animal, b: Animal)
    ensures Speak(a) == Speak(b) <==> KindOf(a) == KindOf(b)
    ensures Speak(a) == "Woof!" <==> a.Dog?
    ensures Speak(a) == "Meow~" <==> a.Cat?
    ensures Speak(a) == "Chirp!" <==> a.Bird?
  {
  }

  /** Moving depends on the class alone, and every class overrides the base
      default, so "moves around" is never the answer. */
  lemma MoveIdentifiesKind(a: Animal, b: Animal)
    ensures Move(a) == Move(b) <==> KindOf(a) == KindOf(b)
    ensures Move(a) == "runs on four legs" <==> a.Dog?
    ensures Move(a) == "sneaks gracefully" <==> a.Cat?
    ensures Move(a) == "hops and flutters" <==> a.Bird?
    ensures Move(a) != DefaultMove
  {
  }

  /** The flight message starts with the bird's name and, right after
      " spreads ", holds the wingspan followed by "cm". */
  lemma FlyLayout(a: Animal)
    requires CanFly(a)
    ensures var n, w := |a.name|, IntToString(a.wingspanCm);
      && Fly(a)[..n] == a.name
      && Fly(a)[n..n + 9] == " spreads "
      && Fly(a)[n + 9..n + 9 + |w| + 2] == w + "cm"
  {
    var n, w := |a.name|, IntToString(a.wingspanCm);
    var tail := "cm wings and takes off! " + Dove;
    assert Fly(a) == (a.name + " spreads ") + (w + tail);
    assert Fly(a)[n + 9..] == w + tail;
    assert tail[..2] == "cm";
    assert (w + tail)[..|w| + 2] == w + "cm";
  }

  /** Two birds with the same name give the same flight message exactly when
      their wingspans agree: the message does not depend on the age and
      does reveal the wingspan. */
  lemma FlyDeterminesWingspan(a: Animal, b: Animal)
    requires CanFly(a) && CanFly(b) && a.name == b.name
    ensures Fly(a) == Fly(b) <==> a.wingspanCm == b.wingspanCm
  {
    if Fly(a) == Fly(b) {
      var p := a.name + " spreads ";
      var tail := "cm wings and takes off! " + Dove;
      var wa, wb := IntToString(a.wingspanCm), IntToString(b.wingspanCm);
      assert Fly(a) == p + (wa + tail);
      assert Fly(b) == p + (wb + tail);
      assert wa + tail == Fly(a)[|p|..] == Fly(b)[|p|..] == wb + tail;
      assert |wa| == |wb|;
      assert wa == (wa + tail)[..|wa|];
      assert wb == (wb + tail)[..|wb|];
      IntToStringInjective(a.wingspanCm, b.wingspanCm);
    }
  }

  /** The Extra column always starts with the name of the field of the
      animal's own class, so the "-" fallback is never printed. */
  lemma ExtraNamesItsField(a: Animal)
    ensures a.Dog? <==> StartsWith(Extra(a), "Breed=")
    ensures a.Cat? <==> StartsWith(Extra(a), "Indoor=")
    ensures a.Bird? <==> StartsWith(Extra(a), "Wingspan=")
    ensures Extra(a) != NoExtra
  {
    var e := Extra(a);
    match a
    case Dog(_, _, breed) =>
      assert e[..6] == "Breed=" && e[0] == 'B';
    case Cat(_, _, indoor) =>
      assert e[..7] == "Indoor=" && e[0] == 'I';
    case Bird(_, _, span) =>
      assert e[..9] == "Wingspan=" && e[0] == 'W';
  }

  /** A dog's Extra shows the em dash exactly when the breed is absent or is
      itself the em dash; any other breed is shown as it is. */
  lemma DogExtraShowsBreed(a: Animal)
    requires a.Dog?
    ensures Extra(a) == "Breed=" + NoBreed <==> a.breed == None || a.breed == Some(NoBreed)
    ensures a.breed.Some? ==> Extra(a) == "Breed=" + a.breed.value
  {
    if Extra(a) == "Breed=" + NoBreed {
      assert Extra(a)[6..] == NoBreed;
    }
  }

  /** A cat's Extra is "Indoor=True" for an indoor cat, "Indoor=False" otherwise. */
  lemma CatExtraShowsIndoor(a: Animal)
    requires a.Cat?
    ensures Extra(a) == "Indoor=True" <==> a.isIndoor
    ensures Extra(a) == "Indoor=False" <==> !a.isIndoor
  {
  }

  /** A bird's Extra is "Wingspan=", the decimal wingspan, then "cm"; so it
      reveals the wingspan: two birds share the column exactly when their
      wingspans agree. */
  lemma BirdExtraShowsWingspan(a: Animal, b: Animal)
    requires a.Bird? && b.Bird?
    ensures var e := Extra(a);
      && |e| >= 11
      && e[..9] == "Wingspan="
      && e[9..|e| - 2] == IntToString(a.wingspanCm)
      && e[|e| - 2..] == "cm"
    ensures Extra(a) == Extra(b) <==> a.wingspanCm == b.wingspanCm
  {
    var e, w := Extra(a), IntToString(a.wingspanCm);
    assert e == "Wingspan=" + w + "cm";
    assert e[9..|e| - 2] == w;
    if Extra(a) == Extra(b) {
      var wa, wb := IntToString(a.wingspanCm), IntToString(b.wingspanCm);
      assert |wa| == |wb|;
      assert wa == Extra(a)[9..9 + |wa|];
      assert wb == Extra(b)[9..9 + |wb|];
      IntToStringInjective(a.wingspanCm, b.wingspanCm);
    }
  }
}
