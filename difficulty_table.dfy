/**
 * The closed table of six difficulty levels and the instruction list the
 * trainer agent is given for a level (`DIFFICULTY_INSTRUCTIONS` and
 * `set_agent_instructions_for_difficulty` in trainer_agent_with_tools.py).
 * A level is identified by its descriptor sentence, which is at once the
 * stored memory text, the key of the table and the text the review expects.
 */
module DifficultyTable {
  import opened Wrappers
  import opened Text

  const LevelPrefix: string := "Kyrills aktuelle Schwierigkeitsstufe ist "

  const Level1: string := LevelPrefix + "1"
  const Level2: string := LevelPrefix + "2"
  const Level3: string := LevelPrefix + "3"
  const Level4: string := LevelPrefix + "4"
  const Level5: string := LevelPrefix + "5"
  const Level6: string := LevelPrefix + "6"

  const Level1Instructions: string :=
      "\n"
    + "SCHWIERIGKEIT STUFE 1 - EINDEUTIGE WAHL:\n"
    + "- Sätze: EXAKT 3-5 Wörter, nie mehr\n"
    + "- Lücke: GENAU eine Lücke mit ___\n"
    + "- Optionen: EXAKT zwei Optionen mit /\n"
    + "- Richtige Option: muss logisch und grammatisch korrekt sein\n"
    + "- Falsche Option: völlig andere Wortart oder Kategorie (z.B. Essen vs. Fahrzeug)\n"
    + "- Verwende nur bekannte Grundwörter (Wasser, Brot, Auto, Haus)\n"
    + "- Beispiel: \"Ich trinke ___.\" → \"Optionen: Wasser / Auto\"\n"

  const Level2Instructions: string :=
      "\n"
    + "SCHWIERIGKEIT STUFE 2 - ÄHNLICHE ABLENKER:\n"
    + "- Sätze: EXAKT 3-5 Wörter, nie mehr  \n"
    + "- Lücke: GENAU eine Lücke mit ___\n"
    + "- Optionen: EXAKT zwei Optionen mit /\n"
    + "- Beide Optionen: gleiche Wortart, gleiche Kategorie\n"
    + "- Nur eine Option: semantisch sinnvoll im Kontext\n"
    + "- Beispiel: \"Ich esse ___.\" → \"Optionen: Brot / Saft\" (beide Lebensmittel, aber nur Brot passt zu \"essen\")\n"

  const Level3Instructions: string :=
      "\n"
    + "SCHWIERIGKEIT STUFE 3 - LÄNGERE SÄTZE:\n"
    + "- Sätze: EXAKT 6-8 Wörter mit Zeitangaben/Adjektiven\n"
    + "- Lücke: GENAU eine Lücke mit ___\n"
    + "- Optionen: EXAKT zwei Optionen mit /\n"
    + "- Logik wie Stufe 1: eine richtig, eine völlig falsch\n"
    + "- Beispiel: \"Heute Morgen habe ich meinen Kaffee ___.\" → \"Optionen: getrunken / gefahren\"\n"

  const Level4Instructions: string :=
      "\n"
    + "SCHWIERIGKEIT STUFE 4 - DREI OPTIONEN:\n"
    + "- Sätze: EXAKT 4-6 Wörter\n"
    + "- Lücke: GENAU eine Lücke mit ___  \n"
    + "- Optionen: EXAKT drei Optionen mit / zwischen allen\n"
    + "- Eine Option: richtig und passend\n"
    + "- Zwei Optionen: aus völlig anderen Bereichen/Kategorien\n"
    + "- Beispiel: \"Am Computer arbeite ich mit der ___.\" → \"Optionen: Maus / Schere / Gabel\"\n"

  const Level5Instructions: string :=
      "\n"
    + "SCHWIERIGKEIT STUFE 5 - GRAMMATIK-FOKUS:\n"
    + "- Sätze: EXAKT 5-7 Wörter\n"
    + "- Lücke: GENAU eine Lücke mit ___\n"
    + "- Optionen: EXAKT 2-3 grammatische Formen desselben Wortes\n"
    + "- Nur eine Form: grammatisch korrekt im Satzkontext  \n"
    + "- Fokus: Perfekt vs. Infinitiv vs. Präsens\n"
    + "- Beispiel: \"Gestern habe ich einen Brief ___.\" → \"Optionen: geschrieben / schreiben / schreibt\"\n"

  const Level6Instructions: string :=
      "\n"
    + "SCHWIERIGKEIT STUFE 6 - FREIE EINGABE:\n"
    + "- Sätze: EXAKT 4-6 Wörter\n"
    + "- Lücke: GENAU eine Lücke mit ___\n"
    + "- KEINE Optionen anbieten\n"
    + "- Erwarte Kyrills freie Eingabe\n"
    + "- Akzeptiere mehrere korrekte Antworten\n"
    + "- Beispiel: \"Ich arbeite am ___.\" (Akzeptiere: Computer, Schreibtisch, Laptop)\n"

  const DialogueFlow: string :=
      "DIALOGFLUSS:\n"
    + "1) Nutze generate_task Tool (Parameter abhängig von aktueller Stufe)\n"
    + "2) Gib String direkt aus\n"
    + "3) Bei richtiger Antwort: \"Richtig. Sehr gut.\"\n"
    + "4) Bei falscher Antwort: \"Das passt nicht. Richtig ist: <Wort>.\"\n"
    + "5) Sofort nächste Aufgabe\n"
    + "6) Bei \"Stop\"/\"Pause\": freundlich verabschieden\n"
    + "\n"
    + "STIL: Deutsch, kurz (max 8 Wörter), warm, keine Erklärungen.\n"
    + "WÖRTER: Nur bekannte Grundwörter (Haushalt/Arbeit/Gefühle).\n"
    + "ERSTE NACHRICHT: Kurze Begrüßung + Beispiel + erste Aufgabe."

  /** `DIFFICULTY_INSTRUCTIONS`: descriptor sentence to level-specific instruction text. */
  const DifficultyInstructions: map<string, string> := map[
    Level1 := Level1Instructions,
    Level2 := Level2Instructions,
    Level3 := Level3Instructions,
    Level4 := Level4Instructions,
    Level5 := Level5Instructions,
    Level6 := Level6Instructions
  ]

  /** The first instruction is this preamble followed by the descriptor. */
  const TrainerPreamble: string := "Du bist Kyrills Sprachtrainer. "

  /** A text is a valid level exactly when it is a key of the table. */
  predicate IsLevel(text: string) {
    text in DifficultyInstructions
  }

  /** The descriptor of level `n`. */
  function LevelText(n: nat): (text: string)
    requires 1 <= n <= 6
    ensures IsLevel(text)
  {
    LevelPrefix + [DigitChar(n)]
  }

  /** The structured review output's pattern `^Kyrills aktuelle Schwierigkeitsstufe ist [1-6]$`. */
  predicate MatchesLevelPattern(text: string) {
    && |text| == |LevelPrefix| + 1
    && text[..|LevelPrefix|] == LevelPrefix
    && '1' <= text[|LevelPrefix|] <= '6'
  }

  /** The table's keys are exactly the strings the review schema's pattern admits. */
  lemma LevelsArePattern(text: string)
    ensures IsLevel(text) <==> MatchesLevelPattern(text)
  {
    if MatchesLevelPattern(text) {
      var c := text[|LevelPrefix|];
      assert text == LevelPrefix + [c];
      assert LevelText(c as int - '0' as int) == text;
    }
  }

  /** There are exactly six levels, and `LevelText` numbers them one to one. */
  lemma SixLevels()
    ensures DifficultyInstructions.Keys == {LevelText(1), LevelText(2), LevelText(3), LevelText(4), LevelText(5), LevelText(6)}
    ensures forall m, n :: 1 <= m <= 6 && 1 <= n <= 6 && LevelText(m) == LevelText(n) ==> m == n
  {
    forall m, n | 1 <= m <= 6 && 1 <= n <= 6 && LevelText(m) == LevelText(n) ensures m == n {
      assert LevelText(m)[|LevelPrefix|] == DigitChar(m);
      assert LevelText(n)[|LevelPrefix|] == DigitChar(n);
    }
  }

  /** The table key actually used for `text`: `text` itself when valid, level 1 otherwise. */
  function EffectiveLevel(text: string): (key: string)
    ensures IsLevel(key)
    ensures key == text <==> IsLevel(text)
    ensures !IsLevel(text) ==> key == Level1
  {
    if IsLevel(text) then text else Level1
  }

  /**
   * The instruction list `set_agent_instructions_for_difficulty(agent, text)`
   * installs: the preamble naming the effective level, that level's table
   * entry, and the fixed dialogue rules.
   */
  function InstructionsFor(text: string): (r: seq<string>)
    ensures |r| == 3
    ensures r[0] == TrainerPreamble + EffectiveLevel(text)
    ensures r[1] == DifficultyInstructions[EffectiveLevel(text)]
    ensures r[2] == DialogueFlow
  {
    var key := EffectiveLevel(text);
    [TrainerPreamble + key, DifficultyInstructions[key], DialogueFlow]
  }

  /** The level an instruction list announces in its first entry, if it announces one. */
  function AnnouncedLevel(instructions: seq<string>): Option<string> {
    if |instructions| > 0 && |TrainerPreamble| <= |instructions[0]|
       && instructions[0][..|TrainerPreamble|] == TrainerPreamble
       && IsLevel(instructions[0][|TrainerPreamble|..])
    then Some(instructions[0][|TrainerPreamble|..])
    else None
  }

  /** The installed instructions announce the effective level, so different levels give different instructions. */
  lemma InstructionsAnnounceLevel(text: string)
    ensures AnnouncedLevel(InstructionsFor(text)) == Some(EffectiveLevel(text))
  {
    var first := InstructionsFor(text)[0];
    assert first[..|TrainerPreamble|] == TrainerPreamble;
    assert first[|TrainerPreamble|..] == EffectiveLevel(text);
  }

  lemma InstructionsDistinguishLevels(a: string, b: string)
    requires IsLevel(a) && IsLevel(b) && a != b
    ensures InstructionsFor(a) != InstructionsFor(b)
  {
    InstructionsAnnounceLevel(a);
    InstructionsAnnounceLevel(b);
  }
}
