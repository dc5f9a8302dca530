/** Alias expansion into a buffer grown by hand: replace_args of src/bnetd/alias_command.cpp and its use in do_alias. */
module AliasReplace {
  import opened Common
  import opened DecimalText
  import opened AliasOffsets
  import opened AliasTemplate

  /** One substitution step: the piece that starts at `i`, then the pieces behind it. */
  lemma SubstitutedStep(s: string, i: nat, text: string)
    requires i < |s| && AllAddressable(Pieces(s, i), text)
    ensures Addressable(PieceAt(s, i), |WordStarts(text)|)
    ensures AllAddressable(Pieces(s, NextAt(s, i)), text)
    ensures Substituted(Pieces(s, i), text)
         == Rendered(PieceAt(s, i), text) + Substituted(Pieces(s, NextAt(s, i)), text)
  {
    var ps := Pieces(s, i);
    assert ps[0] == PieceAt(s, i) && ps[1..] == Pieces(s, NextAt(s, i));
    assert ps[0] in ps;
  }

  method FindBrace(s: string, i: nat) returns (k: nat)
    requires i <= |s|
    ensures k == SkipToBrace(s, i)
  {
    k := i;
    while k < |s| && s[k] != '}'
      invariant i <= k <= |s| && SkipToBrace(s, k) == SkipToBrace(s, i)
    {
      k := k + 1;
    }
  }

  method FindWordEnd(text: string, i: nat) returns (e: nat)
    requires i <= |text|
    ensures e == WordEnd(text, i)
  {
    e := i;
    while e < |text| && text[e] != ' ' && text[e] != '\t'
      invariant i <= e <= |text| && WordEnd(text, e) == WordEnd(text, i)
    {
      e := e + 1;
    }
  }

  /** The two sscanf calls on a brace and the choice between the four range forms; None when nothing matches. */
  method ReadRange(s: string, i: nat, numargs: int) returns (range: Option<(int, int)>)
    requires i < |s| && s[i] == '{' && numargs > 0
    ensures var p := BracePiece(s, i);
      range == if p.Dropped? || First(p) > Last(p, numargs) then None else Some((First(p), Last(p, numargs)))
  {
    var arg1: int, arg2: int;
    var pair := ScanPair(s, i);
    if pair.Some? {
      arg1, arg2 := pair.value.0, pair.value.1;
    } else {
      var one := ScanSymbol(s, i);
      if one.None? {
        return None;
      }
      arg2 := one.value.0;
      if one.value.1 == '}' {
        if arg2 < 0 {
          arg1 := 0;
          arg2 := -arg2;
        } else {
          arg1 := arg2;
        }
      } else if one.value.1 == '-' {
        arg1 := arg2;
        arg2 := numargs - 1;
      } else {
        return None;
      }
    }
    if arg2 >= numargs {
      arg2 := numargs - 1;
    }
    range := if arg1 > arg2 then None else Some((arg1, arg2));
  }

  /** The end of word `arg2`: just before the space that precedes the next word. */
  method RangeOffsets(offsets: array<nat>, text: string, arg1: nat, arg2: nat) returns (off1: nat, off2: nat)
    requires offsets[..] == WordStarts(text) && arg1 <= arg2 < offsets.Length
    ensures off1 <= off2 <= |text| && text[off1..off2] == Words(text, arg1, arg2)
  {
    WordStartsAre(text);
    assert forall k :: 0 <= k < offsets.Length ==> offsets[k] == WordStarts(text)[k];
    off1 := offsets[arg1];
    off2 := if arg2 + 1 == offsets.Length then |text| else offsets[arg2 + 1] - 1;
  }

  /**
   * The text range that the piece at `i` stands for, and the last character of the piece.
   * `off1 == off2` says that the previous substitution has been copied out, so that a dropped piece copies nothing.
   */
  method Select(s: string, i: nat, offsets: array<nat>, text: string, off: nat)
    returns (inpos: nat, off1: nat, off2: nat, copy: bool)
    requires i < |s| && s[i] == '$' && offsets[..] == WordStarts(text)
    requires Addressable(PieceAt(s, i), offsets.Length) && off <= |text|
    ensures inpos + 1 == NextAt(s, i)
    ensures off1 <= off2 <= |text| && text[off1..off2] == Rendered(PieceAt(s, i), text)
    ensures !copy ==> off1 == off2
  {
    inpos, off1, off2, copy := i + 1, off, off, true;
    if inpos == |s| {
    } else if s[inpos] == '*' {
      off1, off2 := offsets[0], |text|;
      assert offsets[..][0] == offsets[0];
      assert text[0..|text|] == text;
    } else if s[inpos] == '{' {
      var range := ReadRange(s, inpos, offsets.Length);
      if range.Some? {
        off1, off2 := RangeOffsets(offsets, text, range.value.0, range.value.1);
      } else {
        copy := false;
      }
      inpos := FindBrace(s, inpos);
    } else if IsDigit(s[inpos]) {
      var arg := DigitValue(s[inpos]);
      if arg >= offsets.Length {
        copy := false;
      } else {
        WordStartsAre(text);
        assert offsets[..][arg] == offsets[arg];
        off1 := offsets[arg];
        off2 := FindWordEnd(text, off1);
      }
    }
  }

  /** Allocates a larger buffer, moves the output over and appends text[off1..off2]. */
  method Append(out: array<char>, outpos: nat, size: nat, text: string, off1: nat, off2: nat)
    returns (newout: array<char>, newpos: nat, newsize: nat)
    requires outpos <= size <= out.Length && off1 <= off2 <= |text|
    ensures fresh(newout) && newout.Length == newsize == size + (off2 - off1) + 1
    ensures newpos == outpos + (off2 - off1)
    ensures newout[..newpos] == out[..outpos] + text[off1..off2]
  {
    newsize := size + (off2 - off1) + 1;
    newout := new char[newsize];
    forall k | 0 <= k < outpos {
      newout[k] := out[k];
    }
    newpos := outpos;
    var o := off1;
    while o < off2
      invariant off1 <= o <= off2 && newpos == outpos + (o - off1)
      invariant newout[..newpos] == out[..outpos] + text[off1..o]
    {
      newout[newpos] := text[o];
      newpos := newpos + 1;
      o := o + 1;
    }
  }

  /** One turn of the main loop: the buffer keeps room for the unread template and the terminator. */
  method Step(s: string, i: nat, offsets: array<nat>, text: string, out: array<char>, outpos: nat, size: nat, off: nat)
    returns (inpos: nat, newout: array<char>, newpos: nat, newsize: nat, newoff: nat)
    requires i < |s| && offsets[..] == WordStarts(text) && Addressable(PieceAt(s, i), offsets.Length)
    requires off <= |text| && size <= out.Length <= size + 1 && outpos + (|s| - i) < out.Length
    modifies out
    ensures inpos == NextAt(s, i) && newoff <= |text|
    ensures newout == out || fresh(newout)
    ensures newsize <= newout.Length <= newsize + 1
    ensures newpos < newout.Length && newpos + (|s| - inpos) < newout.Length
    ensures newout[..newpos] == old(out[..outpos]) + Rendered(PieceAt(s, i), text)
  {
    newout, newpos, newsize, newoff := out, outpos, size, off;
    if s[i] != '$' {
      out[outpos] := s[i];
      newpos := outpos + 1;
      inpos := i + 1;
    } else {
      var off1, copy;
      inpos, off1, newoff, copy := Select(s, i, offsets, text, off);
      if copy {
        newout, newpos, newsize := Append(out, outpos, size, text, off1, newoff);
      }
      inpos := inpos + 1;
    }
  }

  lemma Regroup(done: string, rendered: string, rest: string)
    ensures done + (rendered + rest) == (done + rendered) + rest
  {
  }

  /** The output is the token-by-token substitution, and the buffer always has room for it and its terminator. */
  method ReplaceArgs(s: string, offsets: array<nat>, text: string) returns (out: array<char>, outpos: nat)
    requires offsets[..] == WordStarts(text)
    requires AllAddressable(Pieces(s, 0), text)
    ensures fresh(out)
    ensures outpos < out.Length && out[outpos] == '\0'
    ensures out[..outpos] == Substituted(Pieces(s, 0), text)
  {
    out := new char[|s| + 1](_ => '\0');
    forall k | 0 <= k < |s| {
      out[k] := s[k];
    }
    var size: nat := |s|;
    var inpos: nat, off: nat := 0, 0;
    outpos := 0;
    while inpos < |s|
      invariant fresh(out) && inpos <= |s| + 1 && off <= |text|
      invariant size <= out.Length <= size + 1
      invariant outpos < out.Length && outpos + (|s| - inpos) < out.Length
      invariant AllAddressable(Pieces(s, inpos), text)
      invariant out[..outpos] + Substituted(Pieces(s, inpos), text) == Substituted(Pieces(s, 0), text)
      decreases |s| - inpos
    {
      SubstitutedStep(s, inpos, text);
      Regroup(out[..outpos], Rendered(PieceAt(s, inpos), text), Substituted(Pieces(s, NextAt(s, inpos)), text));
      inpos, out, outpos, size, off := Step(s, inpos, offsets, text, out, outpos, size, off);
    }
    out[outpos] := '\0';
  }

  /** do_alias: the offsets array has exactly one slot per word. */
  method ExpandLine(line: string, text: string) returns (out: array<char>, n: nat)
    requires AllAddressable(Pieces(line, 0), text)
    ensures n < out.Length && out[n] == '\0'
    ensures out[..n] == Substituted(Pieces(line, 0), text)
  {
    var args := CountArgs(text);
    var offsets := new nat[args];
    GetOffsets(text, offsets);
    out, n := ReplaceArgs(line, offsets, text);
  }

  /** A line written in the documented forms is always in range and stands for what its pieces stand for. */
  lemma WrittenLineExpands(ps: seq<Piece>, text: string)
    requires AllPrintable(ps)
    ensures AllAddressable(ps, text) && Pieces(AllWritten(ps), 0) == ps
    ensures Substituted(Pieces(AllWritten(ps), 0), text) == Substituted(ps, text)
  {
    forall p | p in ps
      ensures Addressable(p, |WordStarts(text)|)
    {
      assert Printable(p);
    }
    ReadUndoesWrite(ps);
  }
}
