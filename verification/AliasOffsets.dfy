/** Word offsets of a command text: count_args and get_offsets of src/bnetd/alias_command.cpp. */
module AliasOffsets {

  /** A word after the first one starts at the character that ends a run of spaces. */
  predicate StartsWord(text: string, p: nat) {
    0 < p < |text| && text[p] != ' ' && text[p - 1] == ' '
  }

  /** The offset 0 followed by the starts of the words of text[..n]. */
  function Starts(text: string, n: nat): (r: seq<nat>)
    ensures |r| >= 1 && r[0] == 0
  {
    if n == 0 then [0] else Starts(text, n - 1) + if StartsWord(text, n - 1) then [n - 1] else []
  }

  function WordStarts(text: string): (r: seq<nat>)
    ensures |r| >= 1 && r[0] == 0
  {
    Starts(text, |text|)
  }

  lemma {:induction false} StartsIncrease(text: string, n: nat)
    ensures forall i, j :: 0 <= i < j < |Starts(text, n)| ==> Starts(text, n)[i] < Starts(text, n)[j]
    ensures forall i :: 0 < i < |Starts(text, n)| ==> StartsWord(text, Starts(text, n)[i]) && Starts(text, n)[i] < n
  {
    if n > 0 {
      StartsIncrease(text, n - 1);
    }
  }

  lemma {:induction false} StartsComplete(text: string, n: nat, p: nat)
    requires StartsWord(text, p) && p < n
    ensures p in Starts(text, n)
  {
    if p < n - 1 {
      StartsComplete(text, n - 1, p);
    }
  }

  /** The offsets are strictly increasing, inside the text, and name exactly the word starts. */
  lemma WordStartsAre(text: string)
    ensures forall i, j :: 0 <= i < j < |WordStarts(text)| ==> WordStarts(text)[i] < WordStarts(text)[j]
    ensures forall i :: 0 <= i < |WordStarts(text)| ==> WordStarts(text)[i] <= |text|
    ensures forall p: nat :: p in WordStarts(text) <==>
              p == 0 || (p < |text| && text[p] != ' ' && text[p - 1] == ' ')
  {
    StartsIncrease(text, |text|);
    forall p: nat
      ensures p in WordStarts(text) <==> p == 0 || (p < |text| && text[p] != ' ' && text[p - 1] == ' ')
    {
      if StartsWord(text, p) {
        StartsComplete(text, |text|, p);
      }
      if p > 0 && p in WordStarts(text) {
        var i :| 0 <= i < |WordStarts(text)| && WordStarts(text)[i] == p;
        assert StartsWord(text, Starts(text, |text|)[i]);
      }
    }
  }

  lemma {:induction false} StartsExtend(text: string, n: nat, m: nat)
    requires n <= m
    ensures Starts(text, n) <= Starts(text, m)
  {
    if n < m {
      StartsExtend(text, n, m - 1);
    }
  }

  method CountArgs(text: string) returns (args: nat)
    ensures args == |WordStarts(text)|
  {
    args := 1;
    var notWs := true;
    for p := 0 to |text|
      invariant args == |Starts(text, p)|
      invariant notWs == (p == 0 || text[p - 1] != ' ')
    {
      if notWs && text[p] == ' ' {
        notWs := false;
      }
      if !notWs && text[p] != ' ' {
        notWs := true;
        args := args + 1;
      }
    }
  }

  /** The caller allocates exactly CountArgs(text) slots: every one is filled and none is exceeded. */
  method GetOffsets(text: string, offsets: array<nat>)
    requires offsets.Length == |WordStarts(text)|
    modifies offsets
    ensures offsets[..] == WordStarts(text)
  {
    var counter := 1;
    var notWs := true;
    offsets[0] := 0;
    for p := 0 to |text|
      invariant counter == |Starts(text, p)| <= offsets.Length
      invariant notWs == (p == 0 || text[p - 1] != ' ')
      invariant offsets[..counter] == Starts(text, p)
    {
      if notWs && text[p] == ' ' {
        notWs := false;
      }
      if !notWs && text[p] != ' ' {
        StartsExtend(text, p + 1, |text|);
        notWs := true;
        offsets[counter] := p;
        counter := counter + 1;
      }
    }
    assert offsets[..] == offsets[..counter];
  }
}
