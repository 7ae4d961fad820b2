/** What the fragment builder of models/filteredRequest.go guarantees its callers:
    the fragment is unambiguous (a parser recovers from it, in order, each filter's
    field, operator and placeholder, and the placeholders are the argument names),
    it holds one comparison per filter, placeholder names never clash, and a bad
    filter anywhere yields the error of the first bad one and nothing else. */
module FilterProperties {
  import opened Text
  import opened FilteredRequest

  /** A comparison read back from the fragment. */
  datatype ClauseParts = ClauseParts(property: int, operator: int, name: string)

  const FieldCodes: seq<int> := [Amount, SpentAt, Note, CategoryId]
  const SignCodes: seq<int> := [Equal, Less, Greater, NotEqual, LessOrEqual, GreaterOrEqual]

  /** The first code whose table entry begins `s`. */
  function MatchPrefix(table: map<int, string>, codes: seq<int>, s: string): (r: Option<int>)
    requires forall i :: 0 <= i < |codes| ==> codes[i] in table
    ensures r.Some? ==> r.value in table && table[r.value] <= s
  {
    if codes == [] then None
    else if table[codes[0]] <= s then Some(codes[0])
    else MatchPrefix(table, codes[1..], s)
  }

  /** The first code whose table entry is exactly `s`. */
  function MatchExact(table: map<int, string>, codes: seq<int>, s: string): (r: Option<int>)
    requires forall i :: 0 <= i < |codes| ==> codes[i] in table
    ensures r.Some? ==> r.value in table && table[r.value] == s
  {
    if codes == [] then None
    else if table[codes[0]] == s then Some(codes[0])
    else MatchExact(table, codes[1..], s)
  }

  /** Reads one comparison `column<sign>@name` back into its codes and name. */
  function ParseClause(t: string): Option<ClauseParts> {
    var at := IndexOf('@', t);
    if at == |t| then None
    else
      var head := t[..at];
      match MatchPrefix(FieldsMap, FieldCodes, head)
      case None => None
      case Some(p) =>
        match MatchExact(SignsMap, SignCodes, head[|FieldsMap[p]|..])
        case None => None
        case Some(o) => Some(ClauseParts(p, o, t[at + 1..]))
  }

  /** Reads the words `c1 and c2 and ... cn and` back into the comparisons. */
  function ParseWords(words: seq<string>): Option<seq<ClauseParts>> {
    if words == [] then Some([])
    else if |words| == 1 || words[1] != "and" then None
    else
      match ParseClause(words[0])
      case None => None
      case Some(c) =>
        match ParseWords(words[2..])
        case None => None
        case Some(cs) => Some([c] + cs)
  }

  /** Reads a whole fragment back; the empty fragment holds no comparison. */
  function ParseFragment(fragment: string): Option<seq<ClauseParts>> {
    if fragment == "" then Some([]) else ParseWords(Split(fragment, ' '))
  }

  /** Each comparison followed by the word `and`. */
  function WithAnds(xs: seq<string>): (words: seq<string>)
    ensures |words| == 2 * |xs|
  {
    if xs == [] then [] else [xs[0], "and"] + WithAnds(xs[1..])
  }

  lemma {:induction false} MatchPrefixFinds(table: map<int, string>, codes: seq<int>, s: string, p: int)
    requires forall i :: 0 <= i < |codes| ==> codes[i] in table
    requires p in codes && table[p] <= s
    requires forall q :: q in codes && q != p ==> !(table[q] <= s)
    ensures MatchPrefix(table, codes, s) == Some(p)
    decreases |codes|
  {
    if codes[0] != p {
      assert p in codes[1..];
      MatchPrefixFinds(table, codes[1..], s, p);
    }
  }

  lemma {:induction false} MatchExactFinds(table: map<int, string>, codes: seq<int>, s: string, p: int)
    requires forall i :: 0 <= i < |codes| ==> codes[i] in table
    requires p in codes && table[p] == s
    requires forall q :: q in codes && q != p ==> table[q] != s
    ensures MatchExact(table, codes, s) == Some(p)
    decreases |codes|
  {
    if codes[0] != p {
      assert p in codes[1..];
      MatchExactFinds(table, codes[1..], s, p);
    }
  }

  /** The table entries contain neither `@` nor a space. */
  lemma TablesArePlain(p: int, o: int)
    requires p in FieldsMap && o in SignsMap
    ensures '@' !in FieldsMap[p] && ' ' !in FieldsMap[p]
    ensures '@' !in SignsMap[o] && ' ' !in SignsMap[o]
  {
  }

  /** Column names start with pairwise different letters, so exactly one
      column name begins a comparison. */
  lemma FieldNameIsRecognised(p: int, rest: string)
    requires p in FieldsMap
    ensures MatchPrefix(FieldsMap, FieldCodes, FieldsMap[p] + rest) == Some(p)
  {
    var head := FieldsMap[p] + rest;
    forall q | q in FieldCodes && q != p
      ensures !(FieldsMap[q] <= head)
    {
      assert FieldsMap[q][0] != FieldsMap[p][0];
      assert head[0] == FieldsMap[p][0];
    }
    MatchPrefixFinds(FieldsMap, FieldCodes, head, p);
  }

  /** Signs are pairwise different. */
  lemma SignIsRecognised(o: int)
    requires o in SignsMap
    ensures MatchExact(SignsMap, SignCodes, SignsMap[o]) == Some(o)
  {
    MatchExactFinds(SignsMap, SignCodes, SignsMap[o], o);
  }

  /** The first `@` of `head + "@" + tail` is the one after `head` when `head`
      has none. */
  lemma MarkerAfterHead(head: string, tail: string)
    requires '@' !in head
    ensures IndexOf('@', head + "@" + tail) == |head|
  {
    var t := head + "@" + tail;
    var at := IndexOf('@', t);
    assert t[|head|] == '@';
  }

  /** `FilterModel.Build`'s comparison is read back to exactly the codes and the
      parameter name it was built from, whatever that name is. */
  lemma ClauseRoundTrip(property: int, operator: int, name: string)
    requires property in FieldsMap && operator in SignsMap
    ensures ParseClause(ClauseText(property, operator, name)) ==
      Some(ClauseParts(property, operator, name))
  {
    var field, sign := FieldsMap[property], SignsMap[operator];
    var t := ClauseText(property, operator, name);
    var head := field + sign;
    TablesArePlain(property, operator);
    assert t == head + "@" + name;
    MarkerAfterHead(head, name);
    assert t[..|head|] == head;
    assert t[|head| + 1..] == name;
    FieldNameIsRecognised(property, sign);
    assert head[|field|..] == sign;
    SignIsRecognised(operator);
  }

  /** Every placeholder names a different parameter. */
  lemma PlaceholdersDistinct(i: nat, j: nat)
    requires i != j
    ensures Placeholder(i) != Placeholder(j)
  {
    DecimalInjective(i + 1, j + 1);
    assert Placeholder(i)[1..] == NatToDecimal(i + 1);
    assert Placeholder(j)[1..] == NatToDecimal(j + 1);
  }

  /** A placeholder is `P` and digits: no `@`, no space. */
  lemma PlaceholderIsPlain(i: nat)
    ensures '@' !in Placeholder(i) && ' ' !in Placeholder(i)
  {
    var d := NatToDecimal(i + 1);
    assert Placeholder(i) == "P" + d;
    assert forall k :: 0 <= k < |d| ==> IsDigit(d[k]);
  }

  /** Joining by ` and ` and adding ` and` is joining the words by spaces. */
  lemma {:induction false} JoinWithAnds(xs: seq<string>)
    requires |xs| >= 1
    ensures Join(xs, " and ") + " and" == Join(WithAnds(xs), " ")
    decreases |xs|
  {
    if |xs| == 1 {
      assert WithAnds(xs) == [xs[0], "and"];
      assert WithAnds(xs)[1..] == ["and"];
    } else {
      var rest := xs[1..];
      JoinWithAnds(rest);
      var w := WithAnds(xs);
      assert w == [xs[0], "and"] + WithAnds(rest);
      assert w[1..] == ["and"] + WithAnds(rest);
      assert w[1..][1..] == WithAnds(rest);
      assert Join(w, " ") == xs[0] + " " + ("and" + " " + Join(WithAnds(rest), " "));
    }
  }

  lemma {:induction false} ParseWordsWithAnds(xs: seq<string>, parts: seq<ClauseParts>)
    requires |xs| == |parts|
    requires forall i :: 0 <= i < |xs| ==> ParseClause(xs[i]) == Some(parts[i])
    ensures ParseWords(WithAnds(xs)) == Some(parts)
    decreases |xs|
  {
    if xs != [] {
      ParseWordsWithAnds(xs[1..], parts[1..]);
      assert WithAnds(xs)[2..] == WithAnds(xs[1..]);
      assert parts == [parts[0]] + parts[1..];
    }
  }

  /** Round trip of `FilterBatch.Build`: parsing the fragment of a batch of
      known filters gives back, in batch order, each filter's field and operator
      together with the name of the argument that carries its value. */
  lemma FragmentRoundTrip(batch: seq<FilterModel>)
    requires AllValid(batch)
    ensures CompileFilters(batch).Ok?
    ensures var c := CompileFilters(batch).value;
      ParseFragment(c.fragment).Some? && |ParseFragment(c.fragment).value| == |batch| &&
      forall i :: 0 <= i < |batch| ==>
        ParseFragment(c.fragment).value[i] ==
          ClauseParts(batch[i].property, batch[i].operator, c.args[i].name)
  {
    if batch != [] {
      assert FirstInvalid(batch) == |batch|;
      var texts := ClauseTexts(batch);
      var parts := seq(|batch|, i requires 0 <= i < |batch| =>
        ClauseParts(batch[i].property, batch[i].operator, Placeholder(i)));
      forall i | 0 <= i < |texts|
        ensures ParseClause(texts[i]) == Some(parts[i])
        ensures ' ' !in texts[i]
      {
        ClauseRoundTrip(batch[i].property, batch[i].operator, Placeholder(i));
        TablesArePlain(batch[i].property, batch[i].operator);
        PlaceholderIsPlain(i);
      }
      var words := WithAnds(texts);
      forall k | 0 <= k < |words| ensures ' ' !in words[k] {
        WordsOfWithAnds(texts, k);
      }
      JoinWithAnds(texts);
      SplitJoin(words, ' ');
      assert Join(texts, " and ") + " and" != "";
      ParseWordsWithAnds(texts, parts);
    }
  }

  /** The words are the comparisons at even positions and `and` at odd ones. */
  lemma {:induction false} WordsOfWithAnds(xs: seq<string>, k: nat)
    requires k < 2 * |xs|
    ensures WithAnds(xs)[k] == if k % 2 == 0 then xs[k / 2] else "and"
    decreases |xs|
  {
    if k >= 2 {
      WordsOfWithAnds(xs[1..], k - 2);
      assert WithAnds(xs)[k] == WithAnds(xs[1..])[k - 2];
    }
  }

  /** Each comparison contains exactly one `@`. */
  lemma ClauseHasOneMarker(property: int, operator: int, name: string)
    requires property in FieldsMap && operator in SignsMap
    requires '@' !in name
    ensures Count('@', ClauseText(property, operator, name)) == 1
  {
    TablesArePlain(property, operator);
    var field, sign := FieldsMap[property], SignsMap[operator];
    CountConcat('@', field, sign);
    CountConcat('@', field + sign, "@");
    CountConcat('@', field + sign + "@", name);
    CountAbsent('@', field);
    CountAbsent('@', sign);
    CountAbsent('@', name);
  }

  lemma {:induction false} CountAllOnes(xs: seq<string>)
    requires forall i :: 0 <= i < |xs| ==> Count('@', xs[i]) == 1
    ensures CountAll('@', xs) == |xs|
    decreases |xs|
  {
    if xs != [] {
      CountAllOnes(xs[1..]);
    }
  }

  /** The fragment of a batch of known filters holds exactly one parameter
      reference `@` per filter, and ends with ` and`. */
  lemma FragmentComparisons(batch: seq<FilterModel>)
    requires AllValid(batch) && |batch| > 0
    ensures CompileFilters(batch).Ok?
    ensures var f := CompileFilters(batch).value.fragment;
      Count('@', f) == |batch| && |f| >= 4 && f[|f| - 4..] == " and"
  {
    assert FirstInvalid(batch) == |batch|;
    var texts := ClauseTexts(batch);
    forall i | 0 <= i < |texts| ensures Count('@', texts[i]) == 1 {
      PlaceholderIsPlain(i);
      ClauseHasOneMarker(batch[i].property, batch[i].operator, Placeholder(i));
    }
    CountAllOnes(texts);
    CountJoin('@', texts, " and ");
    CountConcat('@', Join(texts, " and "), " and");
    CountAbsent('@', " and");
  }

  /** The arguments are `P1 .. Pn` in batch order, each carrying its filter's
      value unchanged, and no two share a name. */
  lemma ArgumentsInOrder(batch: seq<FilterModel>)
    requires AllValid(batch)
    ensures CompileFilters(batch).Ok?
    ensures var args := CompileFilters(batch).value.args;
      |args| == |batch| &&
      (forall i :: 0 <= i < |batch| ==>
        args[i].name == "P" + NatToDecimal(i + 1) && args[i].value == batch[i].value) &&
      (forall i, j :: 0 <= i < j < |batch| ==> args[i].name != args[j].name)
  {
    if batch != [] {
      assert FirstInvalid(batch) == |batch|;
    }
    var args := CompileFilters(batch).value.args;
    forall i, j | 0 <= i < j < |batch| ensures args[i].name != args[j].name {
      PlaceholdersDistinct(i, j);
    }
  }

  /** A batch with a bad filter at position `k`, all filters before it known,
      fails with that filter's error, wherever `k` is; the operator is checked
      before the field. */
  lemma FirstErrorWins(batch: seq<FilterModel>, k: nat)
    requires k < |batch| && AllValid(batch[..k]) && !ValidFilter(batch[k])
    ensures CompileFilters(batch) ==
      Err(if batch[k].operator !in SignsMap then SignNotFound else FieldNotFound)
  {
    assert FirstInvalid(batch) == k;
  }

  /** The amount-greater-than-100, category-equals-3 batch. */
  lemma TwoFilterExample()
    ensures CompileFilters([FilterModel(Amount, "100", Greater), FilterModel(CategoryId, "3", Equal)]) ==
      Ok(Compiled("Amount>@P1 and CategoryId=@P2 and", [NamedArg("P1", "100"), NamedArg("P2", "3")]))
  {
    var batch := [FilterModel(Amount, "100", Greater), FilterModel(CategoryId, "3", Equal)];
    assert FirstInvalid(batch) == 2;
    assert Placeholder(0) == "P1" && Placeholder(1) == "P2";
    var texts := ClauseTexts(batch);
    assert texts[0] == ClauseText(Amount, Greater, "P1") == "Amount>@P1";
    assert texts[1] == ClauseText(CategoryId, Equal, "P2") == "CategoryId=@P2";
    assert texts == ["Amount>@P1", "CategoryId=@P2"];
    assert Join(texts, " and ") == "Amount>@P1" + " and " + "CategoryId=@P2" by {
      assert texts[1..] == ["CategoryId=@P2"];
    }
    var args := ClauseArgs(batch);
    assert args[0] == NamedArg("P1", "100") && args[1] == NamedArg("P2", "3");
    assert args == [NamedArg("P1", "100"), NamedArg("P2", "3")];
    assert "Amount>@P1" + " and " + "CategoryId=@P2" + " and" == "Amount>@P1 and CategoryId=@P2 and";
    assert CompileFilters(batch) == Ok(Compiled(Join(texts, " and ") + " and", args));
  }
}
