/**
 * The decisions the interactive prompts make on a line already read from
 * standard input: blank means the default, and yes/no answers.
 */
module Prompts {
  import opened GoStrings

  /**
   * prompt: the line with surrounding white space removed, or the fallback
   * when nothing else is left.
   */
  function PromptAnswer(line: string, fallback: string): (r: string)
    ensures AllSpace(line) ==> r == fallback
    ensures !AllSpace(line) ==>
      && r != [] && !IsSpace(r[0]) && !IsSpace(r[|r| - 1])
      && exists k :: InfixAt(r, line, k) && AllSpace(line[..k]) && AllSpace(line[k + |r|..])
  {
    var text := TrimSpace(line);
    TrimSpaceBlock(line);
    if text == "" then fallback else text
  }

  /** An answer meaning "yes": y or yes, in any case. */
  predicate IsYes(v: string)
  {
    EqualFold(v, "y") || EqualFold(v, "yes")
  }

  /** An answer meaning "no": n or no, in any case. */
  predicate IsNo(v: string)
  {
    EqualFold(v, "n") || EqualFold(v, "no")
  }

  /**
   * promptYesNo's answer mapping: a blank line gives the fallback, a yes
   * answer true, a no answer false, and anything else the fallback.
   */
  function YesNoAnswer(line: string, fallback: bool): (r: bool)
    ensures AllSpace(line) ==> r == fallback
    ensures IsYes(TrimSpace(line)) ==> r
    ensures IsNo(TrimSpace(line)) ==> !r
    ensures !IsYes(TrimSpace(line)) && !IsNo(TrimSpace(line)) ==> r == fallback
  {
    var v := PromptAnswer(line, "");
    assert v == TrimSpace(line);
    YesNoDisjoint(v);
    if v == "" then fallback
    else if EqualFold(v, "y") || EqualFold(v, "yes") then true
    else if EqualFold(v, "n") || EqualFold(v, "no") then false
    else fallback
  }

  /** No answer is both yes and no. */
  lemma YesNoDisjoint(v: string)
    ensures !(IsYes(v) && IsNo(v))
  {
    if EqualFold(v, "y") || EqualFold(v, "yes") {
      assert Fold(v[0]) == 'y';
    }
  }

  /** Case and the surrounding white space, newline included, do not matter. */
  lemma YesNoUpperCase(fallback: bool)
    ensures YesNoAnswer("  YES\n", fallback)
  {
    TrimPaddedYes();
    UpperYesIsYes();
  }

  lemma UpperYesIsYes()
    ensures IsYes("YES")
  {
    assert EqualFold("YES", "yes");
  }

  lemma TrimPaddedYes()
    ensures TrimSpace("  YES\n") == "YES"
  {
    assert "  YES\n" == "  " + "YES" + "\n";
    TrimSpaceOf("  ", "YES", "\n");
  }

  /** A "No" answer ended by CR LF is no. */
  lemma YesNoCrLf(fallback: bool)
    ensures !YesNoAnswer("No\r\n", fallback)
  {
    TrimCrLfNo();
    assert EqualFold("No", "no");
  }

  lemma TrimCrLfNo()
    ensures TrimSpace("No\r\n") == "No"
  {
    assert "No\r\n" == "" + "No" + "\r\n";
    TrimSpaceOf("", "No", "\r\n");
  }

  /** An unrecognised answer gives the fallback. */
  lemma YesNoOther(fallback: bool)
    ensures YesNoAnswer("maybe\n", fallback) == fallback
  {
    TrimMaybe();
    assert !IsYes("maybe") && !IsNo("maybe");
  }

  lemma TrimMaybe()
    ensures TrimSpace("maybe\n") == "maybe"
  {
    assert "maybe\n" == "" + "maybe" + "\n";
    TrimSpaceOf("", "maybe", "\n");
  }
}
