/**
 * The `generate_task` tool of trainer_agent_with_tools.py: it turns a gap
 * sentence and up to three answer options into the text of one drill item.
 * The mode follows from which options are blank after `strip()`. The
 * random order of the options is a parameter: `shuffle` is the order
 * `random.shuffle` leaves three options in, `coin` the outcome of
 * `random.choice([True, False])`.
 */
module TaskFormatter {
  import opened Text

  const LineBreak: string := "<br>"
  const FreeInputPrompt: string := "Schreib deine Antwort:"
  const OptionsLabel: string := "Optionen: "
  const Separator: string := " / "
  const IncompleteOptions: string := "Fehler: Unvollständige Optionen"
  const IncompleteParameters: string := "Fehler: Unvollständige Parameter"

  /** The six orders a three-element list can be shuffled into. */
  datatype Shuffle3 = ABC | ACB | BAC | BCA | CAB | CBA

  /** The options in the order `shuffle` puts them: a permutation of `[a, b, c]`. */
  function Arrange<T>(shuffle: Shuffle3, a: T, b: T, c: T): (r: seq<T>)
    ensures |r| == 3 && multiset(r) == multiset([a, b, c])
  {
    match shuffle
    case ABC => [a, b, c]
    case ACB => [a, c, b]
    case BAC => [b, a, c]
    case BCA => [b, c, a]
    case CAB => [c, a, b]
    case CBA => [c, b, a]
  }

  lemma CancelOne<T>(x: T, m1: multiset<T>, m2: multiset<T>)
    requires multiset{x} + m1 == multiset{x} + m2
    ensures m1 == m2
  {
    assert m1 == (multiset{x} + m1) - multiset{x};
    assert m2 == (multiset{x} + m2) - multiset{x};
  }

  lemma PairOrder<T>(x: T, y: T, b: T, c: T)
    requires multiset([x, y]) == multiset([b, c])
    ensures (x == b && y == c) || (x == c && y == b)
  {
    assert [x, y] == [x] + [y];
    assert x in multiset([x, y]);
    if x == b {
      assert [b, c] == [b] + [c];
      CancelOne(b, multiset([y]), multiset([c]));
      assert y in multiset([y]);
    } else {
      assert [b, c] == [b] + [c] && multiset([b, c]) == multiset([c]) + multiset([b]);
      CancelOne(c, multiset([y]), multiset([b]));
      assert y in multiset([y]);
    }
  }

  lemma SplitFirst<T>(s: seq<T>)
    requires |s| == 3
    ensures multiset(s) == multiset{s[0]} + multiset([s[1], s[2]])
  {
    var t := [s[1], s[2]];
    assert s == [s[0]] + t;
    assert multiset([s[0]] + t) == multiset([s[0]]) + multiset(t);
  }

  /** Removing a known first element leaves the other two, in some order. */
  lemma FirstCancel<T>(p: T, q: T, r: T, order: seq<T>)
    requires |order| == 3 && multiset(order) == multiset([p, q, r]) && order[0] == p
    ensures multiset([order[1], order[2]]) == multiset([q, r])
  {
    SplitFirst(order);
    SplitFirst([p, q, r]);
    CancelOne(p, multiset([order[1], order[2]]), multiset([q, r]));
  }

  /** Every permutation of the three options is the outcome of some shuffle. */
  lemma EveryOrderReachable<T>(a: T, b: T, c: T, order: seq<T>) returns (shuffle: Shuffle3)
    requires |order| == 3 && multiset(order) == multiset([a, b, c])
    ensures Arrange(shuffle, a, b, c) == order
  {
    var x, y, z := order[0], order[1], order[2];
    assert order == [x, y, z];
    assert x in multiset(order);
    if x == a {
      FirstCancel(a, b, c, order);
      PairOrder(y, z, b, c);
      shuffle := if y == b then ABC else ACB;
    } else if x == b {
      assert multiset(Arrange(BAC, a, b, c)) == multiset([a, b, c]);
      FirstCancel(b, a, c, order);
      PairOrder(y, z, a, c);
      shuffle := if y == a then BAC else BCA;
    } else {
      assert multiset(Arrange(CAB, a, b, c)) == multiset([a, b, c]);
      FirstCancel(c, a, b, order);
      PairOrder(y, z, a, b);
      shuffle := if y == a then CAB else CBA;
    }
  }

  /**
   * `generate_task(sentence, correct, wrong1, wrong2)`; it never fails and
   * its result always starts with the sentence and a line break.
   */
  function GenerateTask(sentence: string, correct: string, wrong1: string, wrong2: string,
                        shuffle: Shuffle3, coin: bool): (r: string)
    ensures StartsWith(r, sentence + LineBreak)
    // free input: all three options blank
    ensures Blank(correct) && Blank(wrong1) && Blank(wrong2) ==>
              r == sentence + LineBreak + FreeInputPrompt
    // three options: the given strings, in some order
    ensures !Blank(wrong2) && (Blank(correct) || Blank(wrong1)) ==>
              r == sentence + LineBreak + IncompleteOptions
    ensures !Blank(wrong2) && !Blank(correct) && !Blank(wrong1) ==>
              r == sentence + LineBreak + (OptionsLabel + Join(Arrange(shuffle, correct, wrong1, wrong2), Separator))
    // two options: the correct one first or second
    ensures Blank(wrong2) && !Blank(correct) && !Blank(wrong1) ==>
              || r == sentence + LineBreak + (OptionsLabel + correct + Separator + wrong1)
              || r == sentence + LineBreak + (OptionsLabel + wrong1 + Separator + correct)
    // any other shape: exactly one of `correct`, `wrong1` is given
    ensures Blank(wrong2) && Blank(correct) != Blank(wrong1) ==>
              r == sentence + LineBreak + IncompleteParameters
  {
    var head := sentence + LineBreak;
    var tail :=
      if Blank(correct) && Blank(wrong1) && Blank(wrong2) then
        FreeInputPrompt
      else if !Blank(wrong2) then
        if Blank(correct) || Blank(wrong1) then IncompleteOptions
        else OptionsLabel + Join(Arrange(shuffle, correct, wrong1, wrong2), Separator)
      else if !Blank(correct) && !Blank(wrong1) then
        if coin then OptionsLabel + correct + Separator + wrong1
        else OptionsLabel + wrong1 + Separator + correct
      else
        IncompleteParameters;
    StartsWithConcat(head, tail);
    head + tail
  }

  /** Both orders of a two-option item occur, one for each outcome of the coin. */
  lemma TwoOptionOrders(sentence: string, correct: string, wrong1: string, wrong2: string, shuffle: Shuffle3)
    requires Blank(wrong2) && !Blank(correct) && !Blank(wrong1)
    ensures GenerateTask(sentence, correct, wrong1, wrong2, shuffle, true)
            == sentence + LineBreak + (OptionsLabel + correct + Separator + wrong1)
    ensures GenerateTask(sentence, correct, wrong1, wrong2, shuffle, false)
            == sentence + LineBreak + (OptionsLabel + wrong1 + Separator + correct)
  {
  }

  /** Every order of a three-option item occurs for some shuffle, whatever the coin. */
  lemma ThreeOptionOrders(sentence: string, correct: string, wrong1: string, wrong2: string,
                          coin: bool, order: seq<string>) returns (shuffle: Shuffle3)
    requires !Blank(wrong2) && !Blank(correct) && !Blank(wrong1)
    requires |order| == 3 && multiset(order) == multiset([correct, wrong1, wrong2])
    ensures GenerateTask(sentence, correct, wrong1, wrong2, shuffle, coin)
            == sentence + LineBreak + (OptionsLabel + Join(order, Separator))
  {
    shuffle := EveryOrderReachable(correct, wrong1, wrong2, order);
  }

  /** Texts after the same head that start differently are different. */
  lemma DifferentTails(head: string, x: string, y: string)
    requires x != [] && y != [] && x[0] != y[0]
    ensures head + x != head + y
  {
    assert (head + x)[|head|] == x[0] && (head + y)[|head|] == y[0];
  }

  /** The item text tells the free-input mode apart from every other mode. */
  lemma FreeInputRecognisable(sentence: string, correct: string, wrong1: string, wrong2: string,
                              shuffle: Shuffle3, coin: bool)
    ensures GenerateTask(sentence, correct, wrong1, wrong2, shuffle, coin) == sentence + LineBreak + FreeInputPrompt
            <==> Blank(correct) && Blank(wrong1) && Blank(wrong2)
  {
    var head := sentence + LineBreak;
    var free := FreeInputPrompt;
    assert free[0] == 'S';
    if !Blank(wrong2) {
      if Blank(correct) || Blank(wrong1) {
        DifferentTails(head, IncompleteOptions, free);
      } else {
        var options := Arrange(shuffle, correct, wrong1, wrong2);
        DifferentTails(head, OptionsLabel + Join(options, Separator), free);
      }
    } else if !Blank(correct) && !Blank(wrong1) {
      DifferentTails(head, OptionsLabel + correct + Separator + wrong1, free);
      DifferentTails(head, OptionsLabel + wrong1 + Separator + correct, free);
    } else if Blank(correct) != Blank(wrong1) {
      DifferentTails(head, IncompleteParameters, free);
    }
  }
}
