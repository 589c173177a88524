/**
 * String utilities and symbol composition (src/utils.cpp).
 *
 * Strings are `seq<char>`. The three JVMTI lookups that `sig_string` performs
 * are modelled by `Env`, a snapshot of what the runtime would answer: a
 * lookup whose key is absent is a lookup that returns an error (for instance
 * because the environment is being disposed).
 */
module Utils {
  import opened Wrappers

  // ---------------------------------------------------------------------------
  // starts_with
  // ---------------------------------------------------------------------------

  /** `starts_with`: the first |prefix| characters of `subject` (all of it
      when it is shorter, as `substr` clamps the length) equal `prefix`. */
  function StartsWith(subject: string, prefix: string): (r: bool)
    ensures r <==> prefix <= subject
  {
    (if |prefix| <= |subject| then subject[..|prefix|] else subject) == prefix
  }

  // ---------------------------------------------------------------------------
  // class_name_from_sig
  // ---------------------------------------------------------------------------

  /** `std::string::find` for one character: the first position of `c`, or
      |s| (standing for `npos`) when `c` does not occur. */
  function IndexOf(s: string, c: char): (k: nat)
    ensures k <= |s|
    ensures c !in s[..k]
    ensures k < |s| ==> s[k] == c
  {
    if s == [] then 0
    else if s[0] == c then 0
    else
      var k := 1 + IndexOf(s[1..], c);
      assert s[..k] == [s[0]] + s[1..][..k - 1];
      k
  }

  /** `k` is the first position of `c` in `s`. */
  lemma {:induction false} IndexOfAt(s: string, c: char, k: nat)
    requires k < |s| && s[k] == c && c !in s[..k]
    ensures IndexOf(s, c) == k
    decreases k
  {
    if k > 0 {
      assert s[..k][0] == s[0];
      assert s[1..][..k - 1] == s[..k][1..];
      IndexOfAt(s[1..], c, k - 1);
    }
  }

  /** `c` does not occur in `s`. */
  lemma {:induction false} IndexOfAbsent(s: string, c: char)
    requires c !in s
    ensures IndexOf(s, c) == |s|
    decreases |s|
  {
    if s != [] {
      assert s[0] in s;
      assert forall x :: x in s[1..] ==> x in s;
      IndexOfAbsent(s[1..], c);
    }
  }

  /** `t` with every '/' replaced by '.'. */
  function Dotted(t: string): (r: string)
  {
    seq(|t|, k requires 0 <= k < |t| => if t[k] == '/' then '.' else t[k])
  }

  /** The characters of `u` before its first ';' (all of them when there is
      none), each '/' turned into '.'. */
  function DottedPrefix(u: string): (r: string)
    decreases |u|
  {
    if u == [] || u[0] == ';' then []
    else [if u[0] == '/' then '.' else u[0]] + DottedPrefix(u[1..])
  }

  /** What `class_name_from_sig` returns for `sig`: one leading 'L' dropped,
      then the dotted prefix before the first ';'. On an empty signature
      `result[0]` reads the terminating NUL, which is not 'L'. */
  function ClassName(sig: string): string
  {
    DottedPrefix(if |sig| > 0 && sig[0] == 'L' then sig[1..] else sig)
  }

  /** The dotted prefix is what `find` and the in-place rewrite produce:
      truncate at `IndexOf(u, ';')`, then dot. */
  lemma {:induction false} DottedPrefixByFind(u: string)
    ensures DottedPrefix(u) == Dotted(u[..IndexOf(u, ';')])
    decreases |u|
  {
    if u != [] && u[0] != ';' {
      DottedPrefixByFind(u[1..]);
      var k := IndexOf(u, ';');
      assert k == 1 + IndexOf(u[1..], ';');
      assert u[..k][1..] == u[1..][..k - 1];
    }
  }

  /** `class_name_from_sig`: copies the signature, strips one leading 'L',
      truncates at the first ';' and rewrites the '/' separators in place. */
  method ClassNameFromSig(sig: string) returns (result: string)
    ensures result == ClassName(sig)
  {
    result := sig;
    if |result| > 0 && result[0] == 'L' {
      result := result[1..];
    }
    ghost var u := result;
    result := result[..IndexOf(result, ';')];
    ghost var t := result;
    var i := 0;
    while i < |result|
      invariant 0 <= i <= |result| == |t|
      invariant result[..i] == Dotted(t)[..i]
      invariant result[i..] == t[i..]
    {
      assert result[i] == t[i];
      if result[i] == '/' {
        result := result[i := '.'];
      }
      assert result[..i + 1] == result[..i] + [result[i]];
      i := i + 1;
    }
    assert result == result[..i];
    DottedPrefixByFind(u);
  }

  /** The dotted prefix holds no '/' and no ';' and is never longer than its
      input. */
  lemma {:induction false} DottedPrefixShape(u: string)
    ensures '/' !in DottedPrefix(u) && ';' !in DottedPrefix(u)
    ensures |DottedPrefix(u)| <= |u|
    decreases |u|
  {
    if u != [] && u[0] != ';' {
      DottedPrefixShape(u[1..]);
    }
  }

  /** The class name holds no '/' and no ';' and is never longer than the
      signature it came from. */
  lemma ClassNameShape(sig: string)
    ensures '/' !in ClassName(sig) && ';' !in ClassName(sig)
    ensures |ClassName(sig)| <= |sig|
  {
    DottedPrefixShape(if |sig| > 0 && sig[0] == 'L' then sig[1..] else sig);
  }

  /** Without a ';' the dotted prefix is the whole input, dotted. */
  lemma {:induction false} DottedPrefixOfPlain(b: string)
    requires ';' !in b
    ensures DottedPrefix(b) == Dotted(b)
  {
    IndexOfAbsent(b, ';');
    assert b[..|b|] == b;
    DottedPrefixByFind(b);
  }

  /** A class descriptor `L<b>;` names the class `b` with its '/' separators
      turned into '.'. */
  lemma ClassNameOfDescriptor(b: string)
    requires ';' !in b
    ensures ClassName("L" + b + ";") == Dotted(b)
  {
    var u := ("L" + b + ";")[1..];
    assert u == b + ";" && u[..|b|] == b;
    IndexOfAt(u, ';', |b|);
    DottedPrefixByFind(u);
  }

  /** A signature without a leading 'L' or any ';' (an array or primitive
      descriptor, say) is only dotted. */
  lemma ClassNameOfPlainSignature(sig: string)
    requires ';' !in sig
    requires sig == [] || sig[0] != 'L'
    ensures ClassName(sig) == Dotted(sig)
  {
    DottedPrefixOfPlain(sig);
  }

  /** Only one leading 'L' is stripped, and the text after the first ';' is
      dropped. */
  lemma ClassNameOfNestedPackage()
    ensures ClassName("La/b/C;") == "a.b.C"
  {
    assert "La/b/C;" == "L" + "a/b/C" + ";";
    ClassNameOfDescriptor("a/b/C");
    var d := Dotted("a/b/C");
    assert d[0] == 'a' && d[1] == '.' && d[2] == 'b' && d[3] == '.' && d[4] == 'C';
    assert d == "a.b.C";
  }

  lemma ClassNameStripsOneL()
    ensures ClassName("LLFoo;") == "LFoo"
  {
    assert "LLFoo;" == "L" + "LFoo" + ";";
    ClassNameOfDescriptor("LFoo");
    assert Dotted("LFoo") == "LFoo";
  }

  lemma ClassNameDropsTail()
    ensures ClassName("LA;B") == "A"
  {
    var u := "LA;B"[1..];
    assert u == "A;B" && u[1..] == ";B";
  }

  // ---------------------------------------------------------------------------
  // split_string and its inverse
  // ---------------------------------------------------------------------------

  /** The items that repeated `std::getline(ss, item, d)` extracts from `s`:
      each call reads up to the next `d` (consumed, not stored) or to the end,
      and fails only when nothing at all is left to read. */
  function Split(s: string, d: char): (items: seq<string>)
    ensures items == [] <==> s == []
    decreases |s|
  {
    if s == [] then []
    else
      var k := IndexOf(s, d);
      if k == |s| then [s] else [s[..k]] + Split(s[k + 1..], d)
  }

  /** `parts` separated by `sep`. */
  function Join(parts: seq<string>, sep: string): (r: string)
  {
    if parts == [] then []
    else if |parts| == 1 then parts[0]
    else parts[0] + sep + Join(parts[1..], sep)
  }

  lemma {:induction false} JoinSnoc(parts: seq<string>, last: string, sep: string)
    requires parts != []
    ensures Join(parts + [last], sep) == Join(parts, sep) + sep + last
    decreases |parts|
  {
    if |parts| == 1 {
      assert parts + [last] == [parts[0], last];
      assert (parts + [last])[1..] == [last];
    } else {
      assert (parts + [last])[1..] == parts[1..] + [last];
      JoinSnoc(parts[1..], last, sep);
    }
  }

  lemma JoinPrefixStep(parts: seq<string>, j: nat, sep: string)
    requires 0 < j < |parts|
    ensures Join(parts[..j + 1], sep) == Join(parts[..j], sep) + sep + parts[j]
  {
    assert parts[..j + 1] == parts[..j] + [parts[j]];
    JoinSnoc(parts[..j], parts[j], sep);
  }

  /** The scan inside one `std::getline` call: the position of the next
      delimiter at or after `pos`, or the end of the subject. */
  method NextDelimiter(subject: string, pos: nat, delimiter: char) returns (j: nat)
    requires pos <= |subject|
    ensures pos <= j <= |subject|
    ensures delimiter !in subject[pos..j]
    ensures j < |subject| ==> subject[j] == delimiter
  {
    j := pos;
    while j < |subject| && subject[j] != delimiter
      invariant pos <= j <= |subject|
      invariant delimiter !in subject[pos..j]
    {
      assert subject[pos..j + 1] == subject[pos..j] + [subject[j]];
      j := j + 1;
    }
  }

  /** `split_string`: pushes every item `getline` extracts. */
  method SplitString(subject: string, delimiter: char) returns (result: seq<string>)
    ensures result == Split(subject, delimiter)
  {
    result := [];
    var pos := 0;
    while pos < |subject|
      invariant 0 <= pos <= |subject|
      invariant result + Split(subject[pos..], delimiter) == Split(subject, delimiter)
      decreases |subject| - pos
    {
      var j := NextDelimiter(subject, pos, delimiter);
      SplitFrom(subject, delimiter, pos, j);
      result := result + [subject[pos..j]];
      pos := if j < |subject| then j + 1 else j;
    }
  }

  /** One `getline` step: the item runs from `pos` to the next delimiter
      `j` (or the end), and reading resumes after it. */
  lemma SplitFrom(s: string, d: char, pos: nat, j: nat)
    requires pos < |s| && pos <= j <= |s|
    requires d !in s[pos..j]
    requires j < |s| ==> s[j] == d
    ensures Split(s[pos..], d) == [s[pos..j]] + (if j < |s| then Split(s[j + 1..], d) else [])
  {
    var rest := s[pos..];
    assert rest[..j - pos] == s[pos..j];
    if j < |s| {
      IndexOfAt(rest, d, j - pos);
      assert rest[j - pos + 1..] == s[j + 1..];
    } else {
      assert rest == s[pos..j];
      IndexOfAbsent(rest, d);
    }
  }

  /** No item holds the delimiter. */
  lemma {:induction false} SplitItemsExcludeDelimiter(s: string, d: char)
    ensures forall i :: 0 <= i < |Split(s, d)| ==> d !in Split(s, d)[i]
    decreases |s|
  {
    if s != [] {
      var k := IndexOf(s, d);
      if k < |s| {
        SplitItemsExcludeDelimiter(s[k + 1..], d);
      }
    }
  }

  /** Joining the items with the delimiter gives the subject back, except for
      one trailing delimiter, which `getline` consumes without producing an
      item. */
  lemma {:induction false} JoinSplit(s: string, d: char)
    ensures Join(Split(s, d), [d]) + (if s != [] && s[|s| - 1] == d then [d] else []) == s
    decreases |s|
  {
    if s != [] {
      var k := IndexOf(s, d);
      if k == |s| {
        assert s[..k] == s;
        assert s[|s| - 1] in s;
      } else {
        var rest := s[k + 1..];
        assert s == s[..k] + [d] + rest;
        if rest != [] {
          JoinSplit(rest, d);
          var items := Split(rest, d);
          var trailing := if rest[|rest| - 1] == d then [d] else [];
          JoinCons(s[..k], items, [d]);
          assert s[|s| - 1] == rest[|rest| - 1];
          ConcatAssoc(s[..k] + [d], Join(items, [d]), trailing);
        } else {
          assert Split(s, d) == [s[..k]];
        }
      }
    }
  }

  lemma JoinCons(p: string, parts: seq<string>, sep: string)
    requires parts != []
    ensures Join([p] + parts, sep) == p + sep + Join(parts, sep)
  {
    assert ([p] + parts)[1..] == parts;
  }

  lemma ConcatAssoc<T>(a: seq<T>, b: seq<T>, c: seq<T>)
    ensures (a + b) + c == a + (b + c)
  {
  }

  /** Splitting a join gives the parts back when no part holds the
      delimiter and the last part is not empty. */
  lemma {:induction false} SplitJoin(parts: seq<string>, d: char)
    requires forall i :: 0 <= i < |parts| ==> d !in parts[i]
    requires parts == [] || parts[|parts| - 1] != []
    ensures Split(Join(parts, [d]), d) == parts
    decreases |parts|
  {
    if parts != [] {
      var p := parts[0];
      if |parts| == 1 {
        IndexOfAbsent(p, d);
      } else {
        var tail := Join(parts[1..], [d]);
        var s := p + [d] + tail;
        assert s[..|p|] == p;
        IndexOfAt(s, d, |p|);
        assert s[|p| + 1..] == tail;
        SplitJoin(parts[1..], d);
      }
    }
  }

  /** A trailing delimiter yields no empty last item. */
  lemma SplitTrailingDelimiter()
    ensures Split("a,", ',') == ["a"]
  {
    assert "a,"[..1] == "a" && "a,"[2..] == [];
    IndexOfAt("a,", ',', 1);
  }

  /** Only the last of two trailing delimiters is lost. */
  lemma SplitTwoTrailingDelimiters()
    ensures Split("a,,", ',') == ["a", ""]
  {
    assert "a,,"[..1] == "a" && "a,,"[2..] == ",";
    IndexOfAt("a,,", ',', 1);
    assert ","[..0] == [] && ","[1..] == [];
    IndexOfAt(",", ',', 0);
  }

  /** A leading delimiter yields an empty first item. */
  lemma SplitLeadingDelimiter()
    ensures Split(",a", ',') == ["", "a"]
  {
    assert ",a"[..0] == [] && ",a"[1..] == "a";
    IndexOfAt(",a", ',', 0);
    IndexOfAbsent("a", ',');
  }

  // ---------------------------------------------------------------------------
  // sig_string
  // ---------------------------------------------------------------------------

  type MethodId = int   // jmethodID
  type ClassId = int    // jclass

  /** What GetMethodName hands back: the name, the signature and, when the
      method has one, a generic signature (otherwise a null pointer). */
  datatype MethodName = MethodName(name: string, signature: string, generic: Option<string>)

  /** What GetClassSignature hands back: the signature and an optional generic
      signature. */
  datatype ClassSignature = ClassSignature(signature: string, generic: Option<string>)

  /** The answers of the JVMTI environment: a missing key is a lookup that
      returns an error. */
  datatype Env = Env(
    methodNames: map<MethodId, MethodName>,
    declaringClasses: map<MethodId, ClassId>,
    classSignatures: map<ClassId, ClassSignature>)

  /** An environment that has been disposed answers every lookup with an
      error. */
  const Disposed := Env(map[], map[], map[])

  /** The buffers that `sig_string` may receive from the runtime. */
  datatype Buffer = GenericMethodSig | GenericClassSig | MethodNameBuf | ClassSig | MethodSig

  /** GetMethodName, GetMethodDeclaringClass and GetClassSignature all
      succeed for `m`. */
  predicate LookupsSucceed(env: Env, m: MethodId)
  {
    && m in env.methodNames
    && m in env.declaringClasses
    && env.declaringClasses[m] in env.classSignatures
  }

  /** The symbol `sig_string` renders for `m`: `Class.method`, or "" when a
      lookup fails. */
  function Resolve(env: Env, m: MethodId): (r: string)
    ensures r != [] <==> LookupsSucceed(env, m)
  {
    if LookupsSucceed(env, m) then
      ClassName(env.classSignatures[env.declaringClasses[m]].signature) + "." + env.methodNames[m].name
    else ""
  }

  /** The buffers the runtime allocates for a call of `sig_string` on `m`:
      name and signature (and generic signature) when GetMethodName succeeds,
      and the class signature (and its generic part) when the class lookups
      succeed as well. */
  function Allocated(env: Env, m: MethodId): set<Buffer>
  {
    (if m in env.methodNames then
       {MethodNameBuf, MethodSig} + (if env.methodNames[m].generic.Some? then {GenericMethodSig} else {})
     else {})
    + (if LookupsSucceed(env, m) then
         {ClassSig} + (if env.classSignatures[env.declaringClasses[m]].generic.Some? then {GenericClassSig} else {})
       else {})
  }

  /** The buffer `b` of `sig_string` is non-null, given its out-pointers. */
  predicate Holds(b: Buffer, genericMethodSig: Option<string>, genericClassSig: Option<string>,
                  methodName: Option<string>, csig: Option<string>, msig: Option<string>)
  {
    match b
    case GenericMethodSig => genericMethodSig.Some?
    case GenericClassSig => genericClassSig.Some?
    case MethodNameBuf => methodName.Some?
    case ClassSig => csig.Some?
    case MethodSig => msig.Some?
  }

  /** The tail of `sig_string`: one Deallocate call per non-null buffer. */
  method DeallocateAll(genericMethodSig: Option<string>, genericClassSig: Option<string>,
                       methodName: Option<string>, csig: Option<string>, msig: Option<string>)
    returns (freed: seq<Buffer>)
    ensures forall b :: b in freed <==> Holds(b, genericMethodSig, genericClassSig, methodName, csig, msig)
    ensures forall k, l :: 0 <= k < l < |freed| ==> freed[k] != freed[l]
  {
    freed := [];
    if genericMethodSig.Some? { freed := freed + [GenericMethodSig]; }
    if genericClassSig.Some? { freed := freed + [GenericClassSig]; }
    if methodName.Some? { freed := freed + [MethodNameBuf]; }
    if csig.Some? { freed := freed + [ClassSig]; }
    if msig.Some? { freed := freed + [MethodSig]; }
  }

  /** `sig_string`: fills its out-pointers step by step, composes the symbol
      when every lookup succeeds, then deallocates every non-null buffer,
      each exactly once. `freed` lists the Deallocate calls in order. */
  method SigString(env: Env, m: MethodId) returns (result: string, freed: seq<Buffer>)
    ensures result == Resolve(env, m)
    ensures result == [] <==> !LookupsSucceed(env, m)
    ensures forall b :: b in freed <==> b in Allocated(env, m)
    ensures forall k, l :: 0 <= k < l < |freed| ==> freed[k] != freed[l]
  {
    var genericMethodSig: Option<string> := None;
    var genericClassSig: Option<string> := None;
    var methodName: Option<string> := None;
    var msig: Option<string> := None;
    var csig: Option<string> := None;
    result := "";
    if m in env.methodNames {
      var info := env.methodNames[m];
      methodName, msig, genericMethodSig := Some(info.name), Some(info.signature), info.generic;
      if m in env.declaringClasses && env.declaringClasses[m] in env.classSignatures {
        var cls := env.classSignatures[env.declaringClasses[m]];
        csig, genericClassSig := Some(cls.signature), cls.generic;
        var className := ClassNameFromSig(csig.value);
        result := className + "." + methodName.value;
      }
    }
    freed := DeallocateAll(genericMethodSig, genericClassSig, methodName, csig, msig);
  }

  /** Once the environment is disposed nothing resolves. */
  lemma DisposedResolvesNothing(m: MethodId)
    ensures Resolve(Disposed, m) == ""
  {
  }

  /** A resolved symbol is the class name, a dot and the method name, and the
      part before the last dot holds no '/' or ';'. */
  lemma ResolvedSymbolShape(env: Env, m: MethodId)
    requires LookupsSucceed(env, m)
    ensures var r := Resolve(env, m);
      var cn := ClassName(env.classSignatures[env.declaringClasses[m]].signature);
      r == cn + "." + env.methodNames[m].name && '/' !in cn && ';' !in cn
  {
    ClassNameShape(env.classSignatures[env.declaringClasses[m]].signature);
  }
}
