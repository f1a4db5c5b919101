/** The sequence id generator: the code it generates takes the next value
    of a per-collection counter (creating the counter at `start` the first
    time) by `increment`. Its options are checked and defaulted before they
    are written into the code. */
module SequenceIdGenerators {
  import opened Wrappers
  import opened PhpValues
  import opened PhpArrays
  import opened Strings

  /** `$options[$key] ?? $default`: the option, unless it is absent or
      null. */
  function OptionOr(options: Assoc<Value>, key: string, default: Value): (v: Value)
    ensures !HasKey(options, key) ==> v == default
  {
    match Lookup(options, key)
    case Some(v) => if v.Null? then default else v
    case None => default
  }

  /** The increment and the start the code uses: the increment defaults to
      1 and must be an integer other than 0; a missing start is 1 for a
      positive increment and -1 otherwise, and a given start must be an
      integer other than 0. */
  function Settings(options: Assoc<Value>): (r: Result<(int, int)>)
    ensures var inc, start := OptionOr(options, "increment", Int(1)), OptionOr(options, "start", Null);
      && (r.Ok? <==> inc.Int? && inc.i != 0 && (start.Null? || (start.Int? && start.i != 0)))
      && (r.Err? ==> r.error == InvalidArgument)
      && (r.Ok? ==> r.value.0 == inc.i && r.value.0 != 0 && r.value.1 != 0)
      && (r.Ok? && start.Null? ==> r.value.1 == if inc.i > 0 then 1 else -1)
      && (r.Ok? && start.Int? ==> r.value.1 == start.i)
  {
    var increment := OptionOr(options, "increment", Int(1));
    var start := OptionOr(options, "start", Null);
    if !increment.Int? || increment.i == 0 then Err(InvalidArgument)
    else if start.Null? then Ok((increment.i, if increment.i > 0 then 1 else -1))
    else if !start.Int? || start.i == 0 then Err(InvalidArgument)
    else Ok((increment.i, start.i))
  }

  // The fixed text of the generated code, around the interpolated numbers.
  const CodeHead: string :=
    "$serverInfo = $repository->getConnection()->getMongo()->selectDB('admin')->command(array('buildinfo' => true));\n" +
    "$mongoVersion = $serverInfo['version'];\n\n" +
    "$commandResult = $repository->getConnection()->getMongoDB()->command(array(\n" +
    "    'findandmodify' => 'Mongator_sequence_id_generator',\n" +
    "    'query'         => array('_id' => $repository->getCollectionName()),\n" +
    "    'update'        => array('$inc' => array('sequence' => "
  const CodeAfterIncrement: string :=
    ")),\n" +
    "    'new'           => true,\n));\nif (\n" +
    "    (version_compare($mongoVersion, '2.0', '<') && $commandResult['ok'])\n    ||\n" +
    "    (version_compare($mongoVersion, '2.0', '>=') && null !== $commandResult['value'])\n) {\n" +
    "    %id% = $commandResult['value']['sequence'];\n} else {\n" +
    "    $id = array('_id' => $repository->getCollectionName(), 'sequence' => "
  const CodeAfterStart: string :=
    ");\n" +
    "    $repository\n        ->getConnection()\n        ->getMongoDB()\n" +
    "        ->selectCollection('Mongator_sequence_id_generator')\n        ->insert($id);\n    %id% = "
  const CodeTail: string := ";\n}"

  /** The generated code for an increment and a start. */
  function SequenceCode(increment: int, start: int): string {
    CodeHead + IntToString(increment) + CodeAfterIncrement + IntToString(start) +
    CodeAfterStart + IntToString(start) + CodeTail
  }

  /** `getCode`. */
  function GetCode(options: Assoc<Value>): (r: Result<string>)
    ensures r.Ok? <==> Settings(options).Ok?
    ensures r.Err? ==> r.error == InvalidArgument
    ensures r.Ok? ==> r.value == SequenceCode(Settings(options).value.0, Settings(options).value.1)
  {
    var (increment, start) :- Settings(options);
    Ok(SequenceCode(increment, start))
  }

  /** Without options, the counter starts at 1 and steps by 1. */
  lemma SettingsWithoutOptions()
    ensures Settings([]) == Ok((1, 1))
  {
  }

  /** Null options count as absent. */
  lemma SettingsNullOptions()
    ensures Settings([("increment", Null), ("start", Null)]) == Ok((1, 1))
  {
    var options := [("increment", Null), ("start", Null)];
    assert Lookup(options, "increment") == Some(Null) by {
      assert options[0].0 == "increment";
    }
    assert Lookup(options, "start") == Some(Null) by {
      assert options[1].0 == "start";
    }
  }

  /** A negative increment alone makes the counter start at -1. */
  lemma SettingsNegativeIncrement(increment: int)
    requires increment < 0
    ensures Settings([("increment", Int(increment))]) == Ok((increment, -1))
  {
    var options := [("increment", Int(increment))];
    assert Lookup(options, "increment") == Some(Int(increment)) by {
      assert options[0].0 == "increment";
    }
    assert !HasKey(options, "start");
  }

  predicate IsNumberChar(c: char) {
    IsDigit(c) || c == '-'
  }

  lemma IntToStringChars(i: int)
    ensures forall k :: 0 <= k < |IntToString(i)| ==> IsNumberChar(IntToString(i)[k])
  {
    if i < 0 {
      var n := NatToString(-i);
      assert IntToString(i) == "-" + n;
      forall k | 1 <= k < |IntToString(i)|
        ensures IsDigit(IntToString(i)[k])
      {
        assert IntToString(i)[k] == n[k - 1];
      }
    }
  }

  /** The length of the run of number characters `s` starts with. */
  function NumberRun(s: string): (n: nat)
    ensures n <= |s|
  {
    if s != [] && IsNumberChar(s[0]) then 1 + NumberRun(s[1..]) else 0
  }

  lemma {:induction false} NumberRunOf(a: string, x: string)
    requires forall k :: 0 <= k < |a| ==> IsNumberChar(a[k])
    requires x != [] && !IsNumberChar(x[0])
    ensures NumberRun(a + x) == |a|
  {
    if a != [] {
      assert (a + x)[1..] == a[1..] + x;
      NumberRunOf(a[1..], x);
    } else {
      assert a + x == x;
    }
  }

  /** A number followed by text that does not start like a number can be
      read off unambiguously. */
  lemma SplitNumber(a: string, x: string, b: string, y: string)
    requires forall k :: 0 <= k < |a| ==> IsNumberChar(a[k])
    requires forall k :: 0 <= k < |b| ==> IsNumberChar(b[k])
    requires x != [] && y != [] && !IsNumberChar(x[0]) && !IsNumberChar(y[0])
    requires a + x == b + y
    ensures a == b && x == y
  {
    NumberRunOf(a, x);
    NumberRunOf(b, y);
    assert a == (a + x)[..|a|] && b == (b + y)[..|b|];
    assert x == (a + x)[|a|..] && y == (b + y)[|b|..];
  }

  lemma DropPrefix(p: string, u: string, v: string)
    requires p + u == p + v
    ensures u == v
  {
    assert u == (p + u)[|p|..] && v == (p + v)[|p|..];
  }

  /** Text of the shape `h a m1 b m2 b t`, with numbers `a` and `b` each
      followed by text that does not start like a number, determines `a`
      and `b`. */
  lemma TwoNumbers(h: string, m1: string, m2: string, t: string, a1: string, b1: string, a2: string, b2: string)
    requires forall k :: 0 <= k < |a1| ==> IsNumberChar(a1[k])
    requires forall k :: 0 <= k < |a2| ==> IsNumberChar(a2[k])
    requires forall k :: 0 <= k < |b1| ==> IsNumberChar(b1[k])
    requires forall k :: 0 <= k < |b2| ==> IsNumberChar(b2[k])
    requires m1 != [] && !IsNumberChar(m1[0]) && m2 != [] && !IsNumberChar(m2[0])
    requires h + a1 + m1 + b1 + m2 + b1 + t == h + a2 + m1 + b2 + m2 + b2 + t
    ensures a1 == a2 && b1 == b2
  {
    var rest1, rest2 := m1 + (b1 + (m2 + b1 + t)), m1 + (b2 + (m2 + b2 + t));
    assert h + a1 + m1 + b1 + m2 + b1 + t == h + (a1 + rest1);
    assert h + a2 + m1 + b2 + m2 + b2 + t == h + (a2 + rest2);
    DropPrefix(h, a1 + rest1, a2 + rest2);
    SplitNumber(a1, rest1, a2, rest2);
    DropPrefix(m1, b1 + (m2 + b1 + t), b2 + (m2 + b2 + t));
    SplitNumber(b1, m2 + b1 + t, b2, m2 + b2 + t);
  }

  lemma IntToStringInjective(i: int, j: int)
    requires IntToString(i) == IntToString(j)
    ensures i == j
  {
    IntToStringRoundTrip(i);
    IntToStringRoundTrip(j);
  }

  /** The generated code embeds the increment and the start: different
      settings give different code, and the settings can be read back from
      the code. */
  lemma SequenceCodeInjective(inc1: int, start1: int, inc2: int, start2: int)
    requires SequenceCode(inc1, start1) == SequenceCode(inc2, start2)
    ensures inc1 == inc2 && start1 == start2
  {
    IntToStringChars(inc1);
    IntToStringChars(inc2);
    IntToStringChars(start1);
    IntToStringChars(start2);
    assert CodeAfterIncrement[0] == ')' && CodeAfterStart[0] == ')';
    TwoNumbers(CodeHead, CodeAfterIncrement, CodeAfterStart, CodeTail,
      IntToString(inc1), IntToString(start1), IntToString(inc2), IntToString(start2));
    IntToStringInjective(inc1, inc2);
    IntToStringInjective(start1, start2);
  }

  /** Two option sets that both pass produce the same code exactly when
      they agree on the increment and the start in effect. */
  lemma GetCodeDeterminesSettings(o1: Assoc<Value>, o2: Assoc<Value>)
    requires GetCode(o1).Ok? && GetCode(o2).Ok?
    ensures GetCode(o1) == GetCode(o2) <==> Settings(o1) == Settings(o2)
  {
    if GetCode(o1) == GetCode(o2) {
      var (i1, s1) := Settings(o1).value;
      var (i2, s2) := Settings(o2).value;
      SequenceCodeInjective(i1, s1, i2, s2);
    }
  }
}
