/**
 Text codes in pack formats. unpack skips a text code without skipping the bytes that pack
 wrote for it, so it may read them as integers. This says for which formats that can happen.
 */
module PackText {
  import opened Basics
  import opened PackFormat

  /** `C*` takes all that is left. */
  predicate TakesAll(d: Directive) {
    d.code == 'C' && d.star
  }

  /** An integer code that is applied at least once. */
  predicate Reads(d: Directive) {
    Width(d.code) > 0 && (d.repeat > 0 || TakesAll(d))
  }

  predicate Quiet(dirs: seq<Directive>) {
    forall i :: 0 <= i < |dirs| ==> !Reads(dirs[i])
  }

  /** No text code stands in front of an integer code that reads, unless `C*` has taken every argument before. */
  predicate Unexposed(dirs: seq<Directive>) {
    dirs == [] || TakesAll(dirs[0]) || (if IsText(dirs[0].code) then Quiet(dirs[1..]) else Unexposed(dirs[1..]))
  }

  /** The integer arguments that pack consumes, reduced to the widths of their codes; a text code consumes one, too. */
  function Ints(dirs: seq<Directive>, args: seq<Arg>): seq<int>
    decreases |dirs|
  {
    if dirs == [] then []
    else if IsText(dirs[0].code) then Ints(dirs[1..], if args == [] then [] else args[1..])
    else if Width(dirs[0].code) == 0 then Ints(dirs[1..], args)
    else
      var k := Min(Count(dirs[0], |args|), |args|);
      Reduced(Repeated(dirs[0].code, k), args) + Ints(dirs[1..], args[k..])
  }

  /** What pack writes behind b. */
  function Written(dirs: seq<Directive>, args: seq<Arg>, b: seq<Byte>): seq<Byte>
    requires b <= Packed(dirs, args, b)
  {
    Packed(dirs, args, b)[|b|..]
  }

  lemma CodeKinds(d: Directive)
    ensures IsText(d.code) ==> Width(d.code) == 0
    ensures TakesAll(d) ==> Width(d.code) == 1
    ensures forall n: nat :: Count(d, n) == if TakesAll(d) then n else d.repeat
  {
  }

  // ----- pack only appends

  lemma {:induction false} PaddedGrows(b: seq<Byte>, pad: Byte, length: int)
    ensures b <= Padded(b, pad, length)
    decreases length - |b|
  {
    if |b| < length {
      PaddedGrows(b + [pad], pad, length);
    }
  }

  lemma {:induction false} Grows(dirs: seq<Directive>, args: seq<Arg>, b: seq<Byte>)
    ensures b <= Packed(dirs, args, b)
    decreases |dirs|
  {
    hide Count, EncodeMany, Width, Padded;
    if dirs != [] {
      var d := dirs[0];
      if IsText(d.code) && args != [] {
        var pad: Byte := if d.code == 'A' then 32 else 0;
        var more := Padded(b + args[0].asText, pad, d.repeat);
        PaddedGrows(b + args[0].asText, pad, d.repeat);
        Grows(dirs[1..], args[1..], more);
      } else if IsText(d.code) || Width(d.code) == 0 {
        Grows(dirs[1..], args, b);
      } else {
        var n := Count(d, |args|);
        Grows(dirs[1..], args[Min(n, |args|)..], b + EncodeMany(d.code, args, n));
      }
    }
  }

  /** Once the arguments have run out, nothing is written and nothing expected. */
  lemma {:induction false} NoArgs(dirs: seq<Directive>, b: seq<Byte>)
    ensures Packed(dirs, [], b) == b && Ints(dirs, []) == []
    decreases |dirs|
  {
    hide Width, Count;
    if dirs != [] {
      NoArgs(dirs[1..], b);
      var none: seq<Arg> := [];
      assert none[Min(Count(dirs[0], 0), 0)..] == none;
      if Width(dirs[0].code) > 0 {
        assert b + EncodeMany(dirs[0].code, none, Count(dirs[0], 0)) == b;
      }
    }
  }

  lemma {:induction false} NoData(dirs: seq<Directive>)
    ensures Unpacked(dirs, []) == []
    decreases |dirs|
  {
    hide Width, Count;
    if dirs != [] {
      NoData(dirs[1..]);
      var none: seq<Byte> := [];
      if Width(dirs[0].code) > 0 {
        NothingRead(dirs[0].code, none, Count(dirs[0], 0));
        assert none[0..] == none;
      }
    }
  }

  // ----- formats whose text codes nothing reads

  /** One integer directive of both interpreters: what pack writes for it, and what unpack reads of that. */
  lemma RunStep(dirs: seq<Directive>, args: seq<Arg>, b: seq<Byte>, data: seq<Byte>)
    requires dirs != [] && Width(dirs[0].code) > 0
    ensures
      var d, n := dirs[0], Count(dirs[0], |args|);
      var k, m := Min(n, |args|), Count(d, |data|);
      && Packed(dirs, args, b) == Packed(dirs[1..], args[k..], b + EncodeMany(d.code, args, n))
      && Unpacked(dirs, data) == DecodeMany(d.code, data, m) + Unpacked(dirs[1..], data[Used(d.code, |data|, m)..])
      && Ints(dirs, args) == Reduced(Repeated(d.code, k), args) + Ints(dirs[1..], args[k..])
  {
    hide EncodeMany, DecodeMany, Used, Repeated, Count, Reduced;
  }

  lemma {:induction false} QuietReads(dirs: seq<Directive>, data: seq<Byte>, args: seq<Arg>)
    requires Quiet(dirs)
    ensures Unpacked(dirs, data) == [] && Ints(dirs, args) == []
    decreases |dirs|
  {
    hide Width, Count, DecodeMany, EncodeMany, Used, Reduced, Padded;
    if dirs != [] {
      var d := dirs[0];
      assert !Reads(d);
      CodeKinds(d);
      if Width(d.code) == 0 {
        QuietReads(dirs[1..], data, if IsText(d.code) && args != [] then args[1..] else args);
      } else {
        RunStep(dirs, args, [], data);
        NothingRead(d.code, data, 0);
        assert data[0..] == data && args[0..] == args;
        QuietReads(dirs[1..], data, args);
      }
    }
  }

  lemma WrittenRun(b: seq<Byte>, e: seq<Byte>, all: seq<Byte>)
    requires b + e <= all
    ensures all[|b|..] == e + all[|b + e|..]
  {
  }

  lemma {:induction false} UnexposedInverts(dirs: seq<Directive>, args: seq<Arg>, b: seq<Byte>)
    requires Unexposed(dirs)
    ensures b <= Packed(dirs, args, b) && Unpacked(dirs, Written(dirs, args, b)) == Ints(dirs, args)
    decreases |dirs|
  {
    hide Width, EncodeMany, DecodeMany, Used, Repeated, Reduced, Count, Padded;
    Grows(dirs, args, b);
    if args == [] {
      NoArgs(dirs, b);
      NoData(dirs);
      assert b[|b|..] == [];
    } else if dirs == [] {
      assert b[|b|..] == [];
    } else if IsText(dirs[0].code) {
      CodeKinds(dirs[0]);
      QuietReads(dirs[1..], Written(dirs, args, b), args[1..]);
    } else if Width(dirs[0].code) == 0 {
      CodeKinds(dirs[0]);
      UnexposedInverts(dirs[1..], args, b);
    } else {
      IntegersInvert(dirs, args, b);
    }
  }

  lemma {:induction false} IntegersInvert(dirs: seq<Directive>, args: seq<Arg>, b: seq<Byte>)
    requires dirs != [] && Width(dirs[0].code) > 0 && Unexposed(dirs) && b <= Packed(dirs, args, b)
    ensures Unpacked(dirs, Written(dirs, args, b)) == Ints(dirs, args)
    decreases |dirs|, 0
  {
    hide Width, EncodeMany, DecodeMany, Used, Repeated, Reduced, Packed, Unpacked, Ints;
    var d := dirs[0];
    var n := Count(d, |args|);
    var k := Min(n, |args|);
    var e, rest := EncodeMany(d.code, args, n), args[k..];
    var all := Packed(dirs[1..], rest, b + e);
    Grows(dirs[1..], rest, b + e);
    var more := all[|b + e|..];
    WrittenRun(b, e, all);
    RunStep(dirs, args, b, e + more);
    if n >= |args| {
      assert rest == [];
      NoArgs(dirs[1..], b + e);
      assert more == [];
      NoData(dirs[1..]);
    } else {
      CodeKinds(d);
      UnexposedInverts(dirs[1..], rest, b + e);
    }
    SameCount(d, args, e, more);
    RunRoundTrip(d.code, args, n, more, Count(d, |e + more|));
  }

  // ----- formats with an exposed text code

  /** Four bytes are enough for every code. */
  lemma {:induction false} ReadsSome(dirs: seq<Directive>, data: seq<Byte>)
    requires |data| >= 4 && !Quiet(dirs)
    ensures Unpacked(dirs, data) != []
    decreases |dirs|
  {
    var d := dirs[0];
    if Width(d.code) == 0 {
      ReadsSome(dirs[1..], data);
    } else if Reads(d) {
      assert DecodeMany(d.code, data, Count(d, |data|)) != [];
    } else {
      NothingRead(d.code, data, 0);
      assert data[0..] == data;
      ReadsSome(dirs[1..], data);
    }
  }

  function Zeros(n: nat): (args: seq<Arg>)
    ensures |args| == n
  {
    if n == 0 then [] else [Arg(0, [])] + Zeros(n - 1)
  }

  lemma {:induction false} EncodeFront(code: char, xs: seq<Arg>, ys: seq<Arg>)
    requires Width(code) > 0
    ensures EncodeMany(code, xs + ys, |xs|) == EncodeMany(code, xs, |xs|)
  {
    hide Encode, Width;
    if xs == [] {
    } else {
      assert (xs + ys)[1..] == xs[1..] + ys;
      EncodeFront(code, xs[1..], ys);
    }
  }

  /** Arguments on which unpack returns more than pack was given. */
  lemma {:induction false} ExposedBreaks(dirs: seq<Directive>, b: seq<Byte>) returns (args: seq<Arg>)
    requires !Unexposed(dirs)
    ensures b <= Packed(dirs, args, b) && |Unpacked(dirs, Written(dirs, args, b))| > |Ints(dirs, args)|
    decreases |dirs|
  {
    hide Width, EncodeMany, DecodeMany, Used, Repeated, Reduced, Count, Padded;
    var d := dirs[0];
    if IsText(d.code) {
      args := TextBreaks(dirs, b);
    } else if Width(d.code) == 0 {
      args := ExposedBreaks(dirs[1..], b);
    } else {
      hide Packed, Unpacked, Ints;
      var zeros := Zeros(d.repeat);
      var e := EncodeMany(d.code, zeros, d.repeat);
      var others := ExposedBreaks(dirs[1..], b + e);
      args := zeros + others;
      EncodeFront(d.code, zeros, others);
      assert args[d.repeat..] == others;
      CountCases(d, |args|);
      var all := Packed(dirs[1..], others, b + e);
      var more := all[|b + e|..];
      CountCases(d, |e + more|);
      WrittenRun(b, e, all);
      RunStep(dirs, args, b, e + more);
      RunRoundTrip(d.code, args, d.repeat, more, d.repeat);
    }
  }

  lemma TextBreaks(dirs: seq<Directive>, b: seq<Byte>) returns (args: seq<Arg>)
    requires dirs != [] && IsText(dirs[0].code) && !Quiet(dirs[1..])
    ensures b <= Packed(dirs, args, b) && |Unpacked(dirs, Written(dirs, args, b))| > |Ints(dirs, args)|
  {
    hide Width, Padded, Quiet;
    var text: seq<Byte> := [0, 0, 0, 0];
    args := [Arg(0, text)];
    var d := dirs[0];
    var pad: Byte := if d.code == 'A' then 32 else 0;
    var all := Padded(b + text, pad, d.repeat);
    PaddedGrows(b + text, pad, d.repeat);
    assert args[1..] == [];
    NoArgs(dirs[1..], all);
    assert Packed(dirs, args, b) == all;
    CodeKinds(d);
    ReadsSome(dirs[1..], all[|b|..]);
  }

  /**
   For which formats unpack returns the integers that pack consumed, whatever the arguments:
   exactly those in which no text code can be reached in front of an integer code that reads.
   */
  lemma InvertsExactly(format: string)
    ensures
      var dirs := Directives(format);
      (forall args :: Unpacked(dirs, Packed(dirs, args, [])) == Ints(dirs, args)) <==> Unexposed(dirs)
  {
    hide Packed, Unpacked, Ints, Unexposed, Directives;
    var dirs := Directives(format);
    if Unexposed(dirs) {
      forall args ensures Unpacked(dirs, Packed(dirs, args, [])) == Ints(dirs, args) {
        UnexposedInverts(dirs, args, []);
      }
    } else {
      var args := ExposedBreaks(dirs, []);
      assert Unpacked(dirs, Packed(dirs, args, [])) != Ints(dirs, args);
    }
  }
}
