/** The secret words and the hint word that goes with each. */
module Words {

  /** One entry of `wordList`: the secret word and its hint. */
  datatype WordEntry = WordEntry(word: string, hint: string)

  const WordList: seq<WordEntry> := [
    WordEntry("Strand", "Sand"),
    WordEntry("Pizza", "Käse"),
    WordEntry("Krankenhaus", "Arzt"),
    WordEntry("Schule", "Lernen"),
    WordEntry("Berg", "Stein"),
    WordEntry("Regen", "Wasser"),
    WordEntry("Buch", "Lesen"),
    WordEntry("Hund", "Tier"),
    WordEntry("Auto", "Fahren"),
    WordEntry("Baum", "Blätter"),
    WordEntry("Haus", "Wohnen"),
    WordEntry("Kuchen", "Süß"),
    WordEntry("Flugzeug", "Fliegen"),
    WordEntry("Computer", "Technik"),
    WordEntry("Musik", "Klang"),
    WordEntry("Fußball", "Sport"),
    WordEntry("Garten", "Blumen"),
    WordEntry("Kaffee", "Getränk"),
    WordEntry("Film", "Kino"),
    WordEntry("Telefon", "Anrufen")
  ]

  /** `getRandomWord`: the entry drawn by `pick` (the source's
      `Math.floor(Math.random() * wordList.length)`), always one of the list,
      with a non-empty word and a hint different from it. */
  function GetRandomWord(pick: nat): (e: WordEntry)
    requires pick < |WordList|
    ensures e in WordList
    ensures e.word != "" && e.hint != "" && e.word != e.hint
  {
    WordList[pick]
  }
}
