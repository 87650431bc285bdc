/** The one-argument tale functions: `kolobok` answers with the phrase of a
    character met on Kolobok's road, `newYear` calls a character three times. */
module Tale {
  import opened Results
  import opened Text

  const Grandfather := "дедушка"
  const Hare := "заяц"
  const Fox := "лиса"

  /** The phrase each known character gets, keyed by lower-case name. */
  const Phrases: map<string, string> := map[
    Grandfather := "Я от дедушки ушёл",
    Hare := "Я от зайца ушёл",
    Fox := "Меня съели"
  ]

  /** Message of the error thrown for a character that is not in the tale;
      it quotes the name exactly as the caller spelled it. */
  function UnknownCharacter(persName: string): (msg: string)
    ensures |msg| == |persName| + 27
    ensures msg[26..|msg| - 1] == persName
  {
    "Неверно указан персонаж: '" + persName + "'"
  }

  /** `kolobok(persName)`: a switch on the lower-cased name. */
  function Kolobok(persName: string): (r: Result<string, string>)
    ensures r.Ok? <==> Lower(persName) in Phrases
    ensures r.Ok? ==> r.value == Phrases[Lower(persName)]
    ensures r.Err? ==> r.error == UnknownCharacter(persName)
  {
    match Lower(persName)
    case "дедушка" => Ok("Я от дедушки ушёл")
    case "заяц" => Ok("Я от зайца ушёл")
    case "лиса" => Ok("Меня съели")
    case _ => Err(UnknownCharacter(persName))
  }

  /** `newYear(persName)`: the greeting `persName + "! "` three times over. */
  function NewYear(persName: string): (r: string)
    ensures |r| == 3 * (|persName| + 2)
    ensures r == persName + "! " + persName + "! " + persName + "! "
  {
    var greeting := persName + "! ";
    assert Repeat(greeting, 1) == greeting;
    assert Repeat(greeting, 3) == greeting + (greeting + greeting);
    Repeat(greeting, 3)
  }

  /** Names that differ only in letter case meet the same fate. */
  lemma KolobokCaseInsensitive(a: string, b: string)
    requires Lower(a) == Lower(b)
    ensures Kolobok(a).Ok? == Kolobok(b).Ok?
    ensures Kolobok(a).Ok? ==> Kolobok(a) == Kolobok(b)
  {
  }

  /** In particular a name and its lower-cased form meet the same fate. */
  lemma KolobokOfLower(persName: string)
    ensures Kolobok(persName).Ok? == Kolobok(Lower(persName)).Ok?
    ensures Kolobok(persName).Ok? ==> Kolobok(persName) == Kolobok(Lower(persName))
  {
    LowerIdempotent(persName);
    KolobokCaseInsensitive(persName, Lower(persName));
  }

  /** The error message determines the name it was raised for. */
  lemma UnknownCharacterInjective(a: string, b: string)
    requires UnknownCharacter(a) == UnknownCharacter(b)
    ensures a == b
  {
  }

  /** The grandfather, spelled with a capital. */
  lemma KolobokGrandfather()
    ensures Kolobok("Дедушка") == Ok("Я от дедушки ушёл")
  {
    LowerSpelled("Дедушка", Grandfather);
  }

  /** The hare, spelled in capitals. */
  lemma KolobokHare()
    ensures Kolobok("ЗАЯЦ") == Ok("Я от зайца ушёл")
  {
    LowerSpelled("ЗАЯЦ", Hare);
  }

  /** The fox, spelled in lower case. */
  lemma KolobokFox()
    ensures Kolobok("лиса") == Ok("Меня съели")
  {
    LowerSpelled("лиса", Fox);
  }

  /** Kolobok himself is not a character he meets. */
  lemma KolobokUnknown()
    ensures Kolobok("Колобок") == Err("Неверно указан персонаж: 'Колобок'")
  {
    assert Lower("Колобок")[0] == 'к';
    assert "Неверно указан персонаж: '" + "Колобок" + "'" == "Неверно указан персонаж: 'Колобок'";
  }

  /** Lowering `s` spells `t` when it does so letter by letter. */
  lemma LowerSpelled(s: string, t: string)
    requires |s| == |t|
    requires forall i :: 0 <= i < |s| ==> LowerChar(s[i]) == t[i]
    ensures Lower(s) == t
  {
  }

  /** `newYear` never fails; the empty name still gets the punctuation. */
  lemma NewYearEmpty()
    ensures NewYear("") == "! ! ! "
  {
  }

  /** Different names get different greetings: the name is the first
      `|r| / 3 - 2` characters of the greeting. */
  lemma NewYearInjective(a: string, b: string)
    requires NewYear(a) == NewYear(b)
    ensures a == b
  {
    assert |a| == |b|;
    assert a == NewYear(a)[..|a|];
  }
}
