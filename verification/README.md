# Animal Hierarchy — a Dafny model

This project models the core of the Animal Hierarchy console program: the
closed `Animal` class hierarchy (`Dog`, `Cat`, `Bird`, with the `IFly`
capability implemented only by `Bird`), the in-memory `List<Animal>`
registry with its append and `OfType<IFly>()` query, the "Extra" column of
the animal listing, and the acceptance rules of the two input helpers
`ReadInt` and `ReadYesNo`.

Modules:

- `Wrappers` (`wrappers.dfy`): `Option`, standing for C#'s nullable values.
- `Text` (`text.dfy`): `string.Trim` with .NET's white-space set, ASCII
  `ToLowerInvariant`, and the invariant-culture rendering of `int` and `bool`.
  Decimal rendering comes with its inverse, and trimming with a uniqueness
  characterisation.
- `Animals` (`animals.dfy`): the `Animal` datatype and the `Speak`, `Move`,
  `Fly`, `ToString` and Extra-column behaviours.
- `Registry` (`registry.dfy`): `Add` and the `Flyers` filter, plus an
  iterative `CollectFlyers` that mirrors `ToList()` over the filter.
- `Input` (`input.dfy`): one attempt of `ReadInt` and of `ReadYesNo`.
- `Menu` (`menu.dfy`): the "Add animal" dialogue as a function of its
  answers, the registry invariant the input rules establish, and the seed list.

Two facts about the code shape the model:

- The code does not require a non-empty name. The dialogue trims the name
  and stores whatever is left, even the empty string.
- The dialogue never stores an absent breed (see Findings). `Menu.AddAnimalAsWritten`
  is the dialogue as the code has it. `Menu.AddAnimal` is the corrected reading,
  in which a blank breed answer means no breed. `Menu.AsWrittenAgreesUnlessBlankBreed`
  proves the two differ only for a dog with a blank breed answer.

## Model

| member | source | states |
|---|---|---|
| Animals.SpeakIdentifiesKind | AnimalHierarchy/Program.cs:183-211 | Two animals speak alike exactly when they are of the same class. Dog says "Woof!", Cat says "Meow~", Bird says "Chirp!", in both directions, whatever the name, age or own field. |
| Animals.MoveIdentifiesKind | AnimalHierarchy/Program.cs:184-212 | Two animals move alike exactly when they are of the same class, each class with its own text, and the base default "moves around" is never the result. |
| Animals.Fly | AnimalHierarchy/Program.cs:206-213 | Only an animal that implements `IFly` (a Bird) can be asked to fly. Its message starts with its name followed by " spreads ". |
| Animals.FlyLayout | AnimalHierarchy/Program.cs:213 | The flight message holds, right after the name and " spreads ", the decimal wingspan followed by "cm". |
| Animals.FlyDeterminesWingspan | AnimalHierarchy/Program.cs:213 | For two birds of the same name, the flight messages agree exactly when the wingspans agree. The age plays no part, and the wingspan can be read back. |
| Animals.Label | AnimalHierarchy/Program.cs:185 | `ToString` starts with the class name, a space, the name and ", Age ". |
| Animals.LabelDeterminesAge | AnimalHierarchy/Program.cs:185 | The age follows ", Age " in the label and can be read back. Two animals of the same class and name have the same label exactly when their ages agree. |
| Animals.ExtraNamesItsField | AnimalHierarchy/Program.cs:94-100 | The Extra column starts with "Breed=" exactly for a Dog, "Indoor=" exactly for a Cat, and "Wingspan=" exactly for a Bird. The "-" fallback arm is never produced. |
| Animals.DogExtraShowsBreed | AnimalHierarchy/Program.cs:96 | A dog's column is "Breed=" followed by the breed when there is one. It is "Breed=—" exactly when the breed is absent or is itself "—". |
| Animals.CatExtraShowsIndoor | AnimalHierarchy/Program.cs:97 | A cat's column is "Indoor=True" exactly for an indoor cat and "Indoor=False" exactly otherwise. |
| Animals.BirdExtraShowsWingspan | AnimalHierarchy/Program.cs:98 | A bird's column is "Wingspan=", then the decimal wingspan, then "cm". Two birds have the same column exactly when their wingspans agree. |
| Registry.Add | AnimalHierarchy/Program.cs:63-74 | Appending grows the registry by one. Every earlier animal stays in place, and the new animal is last. |
| Registry.Flyers | AnimalHierarchy/Program.cs:128 | The flyers are no more than the registry, all of them can fly, all come from the registry, and every animal of the registry that can fly is among them. |
| Registry.FlyersConcat | AnimalHierarchy/Program.cs:128 | The flyers of a concatenation are the flyers of the first part followed by those of the second. |
| Registry.FlyersAfterAdd | AnimalHierarchy/Program.cs:128 | After an append, the flyers are the old flyers, followed by the new animal when it can fly. |
| Registry.FlyersIsSubsequence | AnimalHierarchy/Program.cs:128 | The flyers are a subsequence of the registry, in registry order. |
| Registry.FlyersCountsEveryBird | AnimalHierarchy/Program.cs:128 | Each animal that can fly occurs among the flyers exactly as often as in the registry. No other animal occurs at all. |
| Registry.FlyersEmptyIff | AnimalHierarchy/Program.cs:128-129 | There are no flyers exactly when no animal in the registry can fly. |
| Registry.FlyersOfFlyersOnly | AnimalHierarchy/Program.cs:128 | A registry of flyers only is its own flyer list. |
| Registry.FlyersIdempotent | AnimalHierarchy/Program.cs:128 | Filtering the flyers again changes nothing. |
| Registry.CollectFlyers | AnimalHierarchy/Program.cs:128 | One pass over the registry that keeps each flyer yields exactly the filter's result. |
| Input.AcceptInt | AnimalHierarchy/Program.cs:144-145 | An attempt returns a number only when it parsed and lies in [min, max], and then it returns that number unchanged. Any parsed number in range is accepted. |
| Input.YesNo | AnimalHierarchy/Program.cs:154-156 | The answer is yes exactly when the trimmed, lower-cased line is "y" or "yes". It is no exactly when that line is "n" or "no". |
| Input.YesNoMeaning | AnimalHierarchy/Program.cs:154-156 | Yes exactly when the raw line is "y" or "yes" in any letter case, with any white space around it; no likewise with "n" and "no". Every other line is rejected. |
| Input.YesNoIgnoresPadding | AnimalHierarchy/Program.cs:154 | White space around the answer never changes the decision. |
| Input.YesNoIgnoresCase | AnimalHierarchy/Program.cs:154 | Lower-casing the answer first never changes the decision. |
| Input.YesNoExampleYes | AnimalHierarchy/Program.cs:154-155 | " YES" followed by a tab is accepted as yes. |
| Input.YesNoExampleNo | AnimalHierarchy/Program.cs:154-156 | "No" is accepted as no. |
| Input.YesNoExampleRejected | AnimalHierarchy/Program.cs:154-157 | The empty line and "yeah" are rejected. |
| Text.TrimUnique | AnimalHierarchy/Program.cs:154 | Trimming a string made of white space, a string with no white space at either end, and white space gives that middle string. |
| Text.TrimToLowerCommute | AnimalHierarchy/Program.cs:154 | Trimming then lower-casing equals lower-casing then trimming. |
| Text.NatToStringRoundTrip | AnimalHierarchy/Program.cs:98 | Reading the rendered decimal digits back gives the number. |
| Text.IntToStringInjective | AnimalHierarchy/Program.cs:213 | Different integers render as different text. |
| Menu.ChosenKind | AnimalHierarchy/Program.cs:58-79 | A class is chosen exactly for the keys "1", "2" and "3". |
| Menu.Created | AnimalHierarchy/Program.cs:58-75 | For a known key, the switch builds an animal of the chosen class with the trimmed name, the accepted age and the field its prompt collected. An unknown key builds nothing. |
| Menu.AddAnimalAsWritten | AnimalHierarchy/Program.cs:48-80 | The dialogue as the code runs it. A known type appends exactly one animal of that class, with the trimmed name, the accepted age and the field its prompt collected, and every earlier animal stays in place. A dog's breed is the line as typed, never absent. An unknown type leaves the registry unchanged. |
| Menu.AddAnimal | AnimalHierarchy/Program.cs:48-80 | The corrected reading from the Findings row: the same append or no-op, except that a blank breed answer gives a dog with no breed, where the source stores the empty string. |
| Menu.AsWrittenAgreesUnlessBlankBreed | AnimalHierarchy/Program.cs:61-63 | The dialogue as written and the corrected one give the same registry exactly unless type "1" was chosen with a blank breed answer. |
| Menu.BreedAsWritten | AnimalHierarchy/Program.cs:62 | The stored breed is never absent. |
| Menu.Breed | AnimalHierarchy/Program.cs:61-63 | The corrected reading from the Findings row: the breed is absent exactly when the answer is blank, where the source stores the line as typed. Otherwise it is the answer. |
| Menu.AddAnimalAsWrittenKeepsWellFormed | AnimalHierarchy/Program.cs:56-74 | The age must be what one `ReadInt(…, 0, 100)` attempt accepted from its parse outcome. For a bird, the wingspan must be what one `ReadInt(…, 5, 300)` attempt accepted. Then the dialogue as written keeps every age in [0, 100] and every wingspan in [5, 300]. |
| Menu.AddAnimalKeepsWellFormed | AnimalHierarchy/Program.cs:56-74 | The same range invariant for the corrected dialogue. |
| Menu.FlyersAfterAddAnimalAsWritten | AnimalHierarchy/Program.cs:72-74 | In the dialogue as written, adding with type "3" puts the new bird at the end of the flyers. Any other type leaves the flyers unchanged. |
| Menu.FlyersAfterAddAnimal | AnimalHierarchy/Program.cs:72-74 | The same for the corrected dialogue. |
| Menu.BlankBreedAsWritten | AnimalHierarchy/Program.cs:62-63 | As written, an empty breed answer renders "Breed=" and not "Breed=—". |
| Menu.BlankBreedShowsPlaceholder | AnimalHierarchy/Program.cs:96 | With blank meaning absent, a blank breed answer renders "Breed=—". Any other answer renders as typed. |
| Menu.SeedWellFormed | AnimalHierarchy/Program.cs:15-17 | The seed animals satisfy the age and wingspan ranges. |
| Menu.SeedFlyers | AnimalHierarchy/Program.cs:15-17 | Of the seed list, only Kiwi the bird is a flyer. |
| Menu.SeedFly | AnimalHierarchy/Program.cs:17 | Kiwi's flight message is "Kiwi spreads 28cm wings and takes off! 🕊️". |
| Menu.SeedWingspan | AnimalHierarchy/Program.cs:17 | Kiwi's Extra column is "Wingspan=28cm". |
| Menu.SeedExtras | AnimalHierarchy/Program.cs:15-16 | Rex's column is "Breed=Shepherd" and Milo's is "Indoor=True". |

## Left out

- `Main`'s command loop, `ShowMenu`, the window title and the coloured `Warn`/`Notify`/`Info` messages are left out. They are terminal I/O and global console state.
- The printing of `ListAnimals`, `MakeAllSpeak`, `ShowMovements` and `ShowFlyers` is left out. The model has the per-animal values they print (`Extra`, `Speak`, `Move`, `Fly`, the flyer list), but not the row numbers, the column padding or the "No animals yet." branches.
- `GetType().Name` is reflection. `Animals.TagName` stands in for it.
- The retry loops of `ReadInt` and `ReadYesNo` are left out; only one attempt is modelled. At the end of input, `ReadLine` keeps returning null, which reads as an empty line, so both loops would repeat forever. That liveness issue is not modelled.
- `int.TryParse` and its culture rules are left out. An attempt receives the parse outcome as `Option<int>`.
- `Text.ToLower`: only A–Z are lower-cased. Under the invariant culture, no other character lower-cases to y, e, s, n or o, so the yes/no decision is unaffected.
- Strings are sequences of Unicode scalar values, whereas C# strings are UTF-16 code units. Any character outside the Basic Multilingual Plane counts as one `char` here and as two code units in C#. Examples are the dove emoji in the flight message, or an emoji typed into a name or breed. A lone surrogate read from the console cannot be represented at all. No property depends on lengths in code units.
- Integers are unbounded, whereas C# `int` has 32 bits. The model does no arithmetic on ages or wingspans. A negative number is rendered with the invariant culture's "-", whatever the current culture's sign might be.
- The public setters of `Name`, `Age` and the class-specific fields are left out. No code changes an animal after creating it, so the datatype is immutable.

## Findings

| source | as written | input that shows it | evidently intended | confidence | as-written member | corrected member |
|---|---|---|---|---|---|---|
| AnimalHierarchy/Program.cs:62 | The answer to "Breed (optional)" is stored as typed, with end of input turned into the empty string. A dog added from the menu therefore always has a breed, and the "—" placeholder of the listing (line 96) is never shown for it. | Type "1", then an empty breed answer: the listing shows "Breed=" with nothing after it. | A blank answer to the optional prompt leaves the breed absent, so the listing shows "Breed=—". | medium, not executed | Menu.BlankBreedAsWritten | Menu.BlankBreedShowsPlaceholder, Menu.AddAnimal |
