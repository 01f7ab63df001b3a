/**
 * Rendering of a hero card as WhatsApp text (WaConnector.cs,
 * ConvertHeroCardToWhatsApp and BoldFirstDigit): WhatsApp has no card
 * primitive, so the card becomes a bold title, its text, one line per
 * button with a leading digit in bold, and one line per image URL.
 */
module HeroCards {

  import opened Wrappers
  import opened Schema
  import Strings

  const Digits := "123456789"

  /** The source's chain of Replace("1", "*1*") ... Replace("9", "*9*"), one digit of ds at a time. */
  function ReplaceDigits(s: string, ds: string): string
    decreases |ds|
  {
    if ds == [] then s
    else ReplaceDigits(Strings.Replace(s, [ds[0]], "*" + [ds[0]] + "*"), ds[1..])
  }

  /**
   * BoldFirstDigit as the source writes it: the first character through the
   * Replace chain, then the rest; None where Substring(0, 1) throws, that is,
   * on an empty line.
   */
  function BoldFirstDigitChain(line: string): Option<string>
  {
    if line == [] then None
    else Some(ReplaceDigits(line[..1], Digits) + line[1..])
  }

  /** What the chain amounts to: a leading 1-9 wrapped in asterisks, anything else unchanged. */
  function BoldFirstDigit(line: string): Option<string>
  {
    if line == [] then None
    else if '1' <= line[0] <= '9' then Some("*" + [line[0]] + "*" + line[1..])
    else Some(line)
  }

  predicate NoRepeats(ds: string)
  {
    forall i, j :: 0 <= i < j < |ds| ==> ds[i] != ds[j]
  }

  lemma {:induction false} ReplaceDigitsAbsent(s: string, ds: string)
    requires forall i :: 0 <= i < |ds| ==> ds[i] !in s
    ensures ReplaceDigits(s, ds) == s
    decreases |ds|
  {
    if ds != [] {
      Strings.ReplaceSkipsPrefix(s, "", [ds[0]], "*" + [ds[0]] + "*");
      assert s + "" == s;
      ReplaceDigitsAbsent(s, ds[1..]);
    }
  }

  /** The replacement chain wraps a listed character in asterisks and leaves any other alone. */
  lemma {:induction false} ReplaceDigitsOne(c: char, ds: string)
    requires NoRepeats(ds) && '*' !in ds
    ensures ReplaceDigits([c], ds) == if c in ds then "*" + [c] + "*" else [c]
    decreases |ds|
  {
    if ds != [] {
      var d := ds[0];
      if c == d {
        Strings.ReplaceWhole([c], "*" + [c] + "*");
        assert forall i :: 0 <= i < |ds[1..]| ==> ds[1..][i] != c && ds[1..][i] != '*' by {
          forall i | 0 <= i < |ds[1..]| ensures ds[1..][i] != c && ds[1..][i] != '*' {
            assert ds[1..][i] == ds[i + 1];
          }
        }
        ReplaceDigitsAbsent("*" + [c] + "*", ds[1..]);
      } else {
        Strings.ReplaceSkipsPrefix([c], "", [d], "*" + [d] + "*");
        assert [c] + "" == [c];
        ReplaceDigitsOne(c, ds[1..]);
        assert (c in ds) == (c in ds[1..]) by {
          assert ds == [d] + ds[1..];
        }
      }
    }
  }

  /** The Replace chain of the source agrees with BoldFirstDigit on every line. */
  lemma BoldFirstDigitChainAgrees(line: string)
    ensures BoldFirstDigitChain(line) == BoldFirstDigit(line)
  {
    if line != [] {
      ReplaceFirstDigit(line[..1], line[0]);
      KeptLine(line);
    }
  }

  lemma KeptLine(line: string)
    requires line != []
    ensures line == [line[0]] + line[1..]
  {
  }

  lemma ReplaceFirstDigit(first: string, c: char)
    requires first == [c]
    ensures ReplaceDigits(first, Digits) == if '1' <= c <= '9' then "*" + [c] + "*" else [c]
  {
    DigitsFacts(c);
    ReplaceDigitsOne(c, Digits);
  }

  lemma DigitsFacts(c: char)
    ensures NoRepeats(Digits) && '*' !in Digits
    ensures c in Digits <==> '1' <= c <= '9'
  {
    assert forall i :: 0 <= i < |Digits| ==> Digits[i] == ('1' as int + i) as char;
  }

  /** The heading: "*title*\n" and "text\n" when non-empty, and a blank line after either. */
  function Header(card: HeroCard): string
  {
    var t := (if card.title != "" then "*" + card.title + "*\n" else "")
      + (if card.text != "" then card.text + "\n" else "");
    if t != "" then t + "\n" else t
  }

  /** One bolded line per button, in order; None if some title is empty. */
  function ButtonLines(buttons: seq<CardAction>): Option<string>
  {
    if buttons == [] then Some("")
    else
      var done := ButtonLines(buttons[..|buttons| - 1]);
      var line := BoldFirstDigit(buttons[|buttons| - 1].title);
      if done.None? || line.None? then None
      else Some(done.value + (line.value + "\n"))
  }

  /** One line per image URL, in order. */
  function ImageLines(images: seq<CardImage>): string
  {
    if images == [] then ""
    else ImageLines(images[..|images| - 1]) + (images[|images| - 1].url + "\n")
  }

  /** The text a (possibly null) hero card becomes; None when the source throws. */
  function RenderCard(card: Option<HeroCard>): (r: Option<string>)
  {
    match card
    case None => Some("")
    case Some(c) =>
      match ButtonLines(c.buttons)
      case None => None
      case Some(b) => Some(Header(c) + b + ImageLines(c.images))
  }

  /** ConvertHeroCardToWhatsApp, appending to the output line by line as the source does. */
  method ConvertHeroCardToWhatsApp(card: Option<HeroCard>) returns (r: Option<string>)
    ensures r == RenderCard(card)
  {
    if card.None? {
      return Some("");
    }
    var c := card.value;
    var output := "";
    if c.title != "" {
      output := output + "*" + c.title + "*\n";
    }
    if c.text != "" {
      output := output + c.text + "\n";
    }
    if output != "" {
      output := output + "\n";
    }
    assert output == Header(c);
    ghost var head := output;
    var i := 0;
    while i < |c.buttons|
      invariant 0 <= i <= |c.buttons|
      invariant ButtonLines(c.buttons[..i]).Some?
      invariant output == head + ButtonLines(c.buttons[..i]).value
    {
      var line := BoldFirstDigit(c.buttons[i].title);
      if line.None? {
        ButtonLinesFailStep(c.buttons, i);
        ButtonFailureSticks(c.buttons, i + 1);
        return None;
      }
      ButtonLinesStep(c.buttons, i);
      AppendAssoc(head, ButtonLines(c.buttons[..i]).value, line.value + "\n");
      output := output + (line.value + "\n");
      i := i + 1;
    }
    assert c.buttons[..i] == c.buttons;
    ghost var prefix := output;
    var j := 0;
    while j < |c.images|
      invariant 0 <= j <= |c.images|
      invariant output == prefix + ImageLines(c.images[..j])
    {
      ImageLinesStep(c.images, j);
      AppendAssoc(prefix, ImageLines(c.images[..j]), c.images[j].url + "\n");
      output := output + (c.images[j].url + "\n");
      j := j + 1;
    }
    assert c.images[..j] == c.images;
    r := Some(output);
  }

  lemma AppendAssoc(a: string, b: string, c: string)
    ensures (a + b) + c == a + (b + c)
  {
  }

  lemma ButtonLinesStep(buttons: seq<CardAction>, i: nat)
    requires i < |buttons|
    requires ButtonLines(buttons[..i]).Some? && BoldFirstDigit(buttons[i].title).Some?
    ensures ButtonLines(buttons[..i + 1]) ==
      Some(ButtonLines(buttons[..i]).value + (BoldFirstDigit(buttons[i].title).value + "\n"))
  {
    assert buttons[..i + 1][..i] == buttons[..i];
  }

  lemma ButtonLinesFailStep(buttons: seq<CardAction>, i: nat)
    requires i < |buttons|
    requires BoldFirstDigit(buttons[i].title).None?
    ensures ButtonLines(buttons[..i + 1]).None?
  {
    assert buttons[..i + 1][..i] == buttons[..i];
  }

  lemma ImageLinesStep(images: seq<CardImage>, j: nat)
    requires j < |images|
    ensures ImageLines(images[..j + 1]) == ImageLines(images[..j]) + (images[j].url + "\n")
  {
    assert images[..j + 1][..j] == images[..j];
  }

  /** Once a prefix of the buttons fails to render, the whole list does. */
  lemma {:induction false} ButtonFailureSticks(buttons: seq<CardAction>, k: nat)
    requires k <= |buttons|
    requires ButtonLines(buttons[..k]).None?
    ensures ButtonLines(buttons).None?
    decreases |buttons| - k
  {
    if k < |buttons| {
      assert buttons[..k + 1][..k] == buttons[..k];
      ButtonFailureSticks(buttons, k + 1);
    } else {
      assert buttons[..k] == buttons;
    }
  }

  /** Rendering fails exactly when some button title is empty. */
  lemma {:induction false} ButtonLinesFailIff(buttons: seq<CardAction>)
    ensures ButtonLines(buttons).None? <==> exists k :: 0 <= k < |buttons| && buttons[k].title == ""
  {
    if buttons != [] {
      var init := buttons[..|buttons| - 1];
      ButtonLinesFailIff(init);
      if exists k :: 0 <= k < |init| && init[k].title == "" {
        var k :| 0 <= k < |init| && init[k].title == "";
        assert buttons[k].title == "";
      }
      if exists k :: 0 <= k < |buttons| && buttons[k].title == "" {
        var k :| 0 <= k < |buttons| && buttons[k].title == "";
        if k < |init| {
          assert init[k].title == "";
        }
      }
    }
  }

  lemma RenderCardFailsIff(card: HeroCard)
    ensures RenderCard(Some(card)).None? <==>
      exists k :: 0 <= k < |card.buttons| && card.buttons[k].title == ""
  {
    ButtonLinesFailIff(card.buttons);
  }

  /** A null card renders as the empty text; a rendered card starts with its heading. */
  lemma RenderCardHeading(card: Option<HeroCard>)
    ensures card.None? ==> RenderCard(card) == Some("")
    ensures card.Some? && RenderCard(card).Some? ==> Strings.StartsWith(RenderCard(card).value, Header(card.value))
    ensures card.Some? ==> (Header(card.value) == "" <==> card.value.title == "" && card.value.text == "")
  {
    if card.Some? && RenderCard(card).Some? {
      var h := Header(card.value);
      var rest := ButtonLines(card.value.buttons).value + ImageLines(card.value.images);
      assert RenderCard(card).value == h + rest;
      PrefixOfAppend(h, rest);
    }
  }

  lemma PrefixOfAppend(a: string, b: string)
    ensures Strings.StartsWith(a + b, a)
  {
    assert (a + b)[..|a|] == a;
  }

  /** The menu card: "*Menu*", a blank line, then "*1* Option A" and "*2* Option B". */
  lemma RenderMenuCard()
    ensures RenderCard(Some(HeroCard("Menu", "", "", [], [CardAction("imBack", "1 Option A", ""), CardAction("imBack", "2 Option B", "")], None)))
      == Some("*Menu*\n\n" + "*1* Option A\n" + "*2* Option B\n")
  {
    var a, b := CardAction("imBack", "1 Option A", ""), CardAction("imBack", "2 Option B", "");
    var card := HeroCard("Menu", "", "", [], [a, b], None);
    var text := "*1* Option A\n" + "*2* Option B\n";
    MenuButtonLines(a, b);
    assert Header(card) == "*Menu*\n\n";
    assert RenderCard(Some(card)) == Some("*Menu*\n\n" + text + "");
    assert "*Menu*\n\n" + text + "" == "*Menu*\n\n" + "*1* Option A\n" + "*2* Option B\n";
  }

  lemma MenuButtonLines(a: CardAction, b: CardAction)
    requires a.title == "1 Option A" && b.title == "2 Option B"
    ensures ButtonLines([a, b]) == Some("*1* Option A\n" + "*2* Option B\n")
  {
    var buttons := [a, b];
    MenuTitles();
    assert buttons[..0] == [];
    ButtonLinesStep(buttons, 0);
    ButtonLinesStep(buttons, 1);
    assert buttons[..2] == buttons;
    MenuLines();
  }

  lemma MenuTitles()
    ensures BoldFirstDigit("1 Option A") == Some("*1* Option A")
    ensures BoldFirstDigit("2 Option B") == Some("*2* Option B")
  {
    var a, b := "1 Option A", "2 Option B";
    assert a[0] == '1' && a[1..] == " Option A";
    assert b[0] == '2' && b[1..] == " Option B";
    assert "*" + ['1'] + "*" + " Option A" == "*1* Option A";
    assert "*" + ['2'] + "*" + " Option B" == "*2* Option B";
  }

  lemma MenuLines()
    ensures "" + ("*1* Option A" + "\n") == "*1* Option A\n"
    ensures "*2* Option B" + "\n" == "*2* Option B\n"
  {
  }
}
