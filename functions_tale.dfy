/** The second copy of the tale functions. Its `kolobok` takes two more
    parameters, `secondName` and `thirdName`, which it never reads. */
module FunctionsTale {
  import opened Results
  import opened Text
  import Tale

  /** `kolobok(persName, secondName, thirdName)`: the same switch on the
      lower-cased first name. */
  function Kolobok(persName: string, secondName: string, thirdName: string): (r: Result<string, string>)
    ensures r.Ok? <==> Lower(persName) in Tale.Phrases
    ensures r.Ok? ==> r.value == Tale.Phrases[Lower(persName)]
    ensures r.Err? ==> r.error == Tale.UnknownCharacter(persName)
  {
    match Lower(persName)
    case "дедушка" => Ok("Я от дедушки ушёл")
    case "заяц" => Ok("Я от зайца ушёл")
    case "лиса" => Ok("Меня съели")
    case _ => Err(Tale.UnknownCharacter(persName))
  }

  /** `newYear(persName)`, identical to the one-argument module's. */
  function NewYear(persName: string): (r: string)
    ensures |r| == 3 * (|persName| + 2)
    ensures r == persName + "! " + persName + "! " + persName + "! "
  {
    var greeting := persName + "! ";
    assert Repeat(greeting, 1) == greeting;
    assert Repeat(greeting, 3) == greeting + (greeting + greeting);
    Repeat(greeting, 3)
  }

  /** The two extra arguments have no influence on the outcome. */
  lemma KolobokIgnoresExtraNames(persName: string, a: string, b: string, a': string, b': string)
    ensures Kolobok(persName, a, b) == Kolobok(persName, a', b')
  {
  }

  /** Both copies of `kolobok` agree on every input, successes and errors. */
  lemma KolobokAgreesWithTale(persName: string, secondName: string, thirdName: string)
    ensures Kolobok(persName, secondName, thirdName) == Tale.Kolobok(persName)
  {
  }

  /** Both copies of `newYear` agree on every input. */
  lemma NewYearAgreesWithTale(persName: string)
    ensures NewYear(persName) == Tale.NewYear(persName)
  {
  }

  /** Case-insensitivity, carried over from the one-argument copy. */
  lemma KolobokOfLower(persName: string, secondName: string, thirdName: string)
    ensures Kolobok(persName, secondName, thirdName).Ok? == Kolobok(Lower(persName), secondName, thirdName).Ok?
    ensures Kolobok(persName, secondName, thirdName).Ok? ==>
      Kolobok(persName, secondName, thirdName) == Kolobok(Lower(persName), secondName, thirdName)
  {
    KolobokAgreesWithTale(persName, secondName, thirdName);
    KolobokAgreesWithTale(Lower(persName), secondName, thirdName);
    Tale.KolobokOfLower(persName);
  }
}
