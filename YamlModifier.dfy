/** The YAML helper: indentation by nesting level. */
module YamlModifier {

  const Indent: string := "    "

  /** `YamlModifier::indentation`: `str_repeat` of four spaces, `max(0,
      level)` times. */
  function Indentation(level: int): (r: string)
    ensures |r| == 4 * (if level < 0 then 0 else level)
    ensures forall i :: 0 <= i < |r| ==> r[i] == ' '
    decreases if level < 0 then 0 else level
  {
    if level <= 0 then "" else Indent + Indentation(level - 1)
  }

  /** Indenting by `a + b` levels is indenting by `a` then by `b`. */
  lemma {:induction false} IndentationAdds(a: nat, b: nat)
    ensures Indentation(a + b) == Indentation(a) + Indentation(b)
    decreases a
  {
    if a > 0 {
      IndentationAdds(a - 1, b);
      assert Indentation(a + b) == Indent + Indentation(a - 1 + b);
    }
  }

  /** Every negative level indents by nothing. */
  lemma NegativeLevel(level: int)
    requires level < 0
    ensures Indentation(level) == ""
  {
  }
}
