/**
 * The validation rules the DatabaseValidations concern registers on a model
 * class: one presence or absence rule per column whose nullability is known,
 * one uniqueness rule per unique index, each carrying a message read out of
 * the column's or index's comment.
 */
module DatabaseValidations {
  import opened Wrappers

  /** Column metadata: its name, whether it may be NULL (`column.null`, nil when unknown), its comment. */
  datatype Column = Column(name: string, nullable: Option<bool>, comment: Option<string>)

  /** Index metadata: whether it is unique, the columns it covers, its comment. */
  datatype Index = Index(unique: bool, columns: seq<string>, comment: Option<string>)

  /** A validator registered on the model class. */
  datatype Rule =
    | Presence(attribute: string, message: string)
    | Absence(attribute: string, message: string)
    | Uniqueness(attribute: string, scope: seq<string>, message: string)

  /**
   * The concern has no fallback message: when the pattern does not match (or
   * there is no comment at all) `match` yields nil and `[1]` raises, so the
   * whole derivation fails. The error records which pattern failed on what.
   */
  datatype MissingMessage = MissingMessage(key: string, comment: Option<string>)

  type Outcome = Result<seq<Rule>, MissingMessage>

  const PresenceKey: string := "presence_message"
  const AbsenceKey: string := "absence_message"
  const UniquenessKey: string := "uniqueness_message"

  /** The bookkeeping columns the concern never validates. */
  predicate Excluded(name: string) {
    name in ["id", "created_at", "updated_at"]
  }

  /** A column that yields no rule: excluded by name, or with unknown nullability. */
  predicate Skipped(c: Column) {
    Excluded(c.name) || c.nullable.None?
  }

  /** The comment key a column's message is read from: absence for nullable columns, presence otherwise. */
  function MessageKey(c: Column): string {
    if c.nullable == Some(true) then AbsenceKey else PresenceKey
  }

  predicate EndsWithId(name: string) {
    |name| >= 3 && name[|name| - 3..] == "_id"
  }

  /**
   * `name.sub(/_id$/, "")`: removes the leftmost `_id` that is followed by the
   * end of the string or by a line break (Ruby's `$` is end of line). For a
   * single-line name this strips exactly one trailing `_id`.
   */
  function StripIdSuffix(name: string): (r: string)
    ensures '\n' !in name ==> r == if EndsWithId(name) then name[..|name| - 3] else name
  {
    if |name| < 3 then name
    else if name[..3] == "_id" && (|name| == 3 || name[3] == '\n') then name[3..]
    else
      var rest := StripIdSuffix(name[1..]);
      assert '\n' !in name ==> '\n' !in name[1..] by {
        if '\n' in name[1..] {
          var k :| 0 <= k < |name[1..]| && name[1..][k] == '\n';
          assert name[k + 1] == '\n';
        }
      }
      assert |name| > 3 ==> (EndsWithId(name[1..]) <==> EndsWithId(name)) by {
        if |name| > 3 {
          assert name[1..][|name| - 4..] == name[|name| - 3..];
        }
      }
      assert |name| > 3 && EndsWithId(name) ==> [name[0]] + name[1..][..|name| - 4] == name[..|name| - 3];
      assert |name| > 3 ==> [name[0]] + name[1..] == name;
      [name[0]] + rest
  }

  /** The literal text the pattern requires in front of the captured character: `key: "`. */
  function Opening(key: string): string {
    key + ": \""
  }

  /** `s` has the opening text `key: "` at position `i`. */
  predicate OpensAt(key: string, s: string, i: nat) {
    i + |Opening(key)| <= |s| && s[i..i + |Opening(key)|] == Opening(key)
  }

  /** The pattern `/key: "([^"])"/` matches `s` starting at position `i`. */
  predicate MatchesAt(key: string, s: string, i: nat) {
    var n := |Opening(key)|;
    i + n + 2 <= |s| && OpensAt(key, s, i) && s[i + n] != '"' && s[i + n + 1] == '"'
  }

  /** The leftmost position at or after `from` where the pattern matches. */
  function FirstMatch(key: string, s: string, from: nat): (r: Option<nat>)
    decreases |s| - from
    ensures r.Some? ==> from <= r.value && MatchesAt(key, s, r.value)
    ensures r.Some? ==> forall j: nat :: from <= j < r.value ==> !MatchesAt(key, s, j)
    ensures r.None? ==> forall j: nat :: from <= j ==> !MatchesAt(key, s, j)
  {
    if from + |Opening(key)| + 2 > |s| then None
    else if MatchesAt(key, s, from) then Some(from)
    else FirstMatch(key, s, from + 1)
  }

  /**
   * `/key: "([^"])"/.match(comment)[1]`: the single non-quote character
   * captured at the leftmost match, or None where Ruby raises (no comment, or
   * no match).
   */
  function ExtractMessage(key: string, comment: Option<string>): (r: Option<string>)
    ensures r.Some? <==> comment.Some? && exists i: nat :: MatchesAt(key, comment.value, i)
    ensures r.Some? ==> |r.value| == 1 && r.value[0] != '"'
    ensures r.Some? ==> exists i: nat ::
      && MatchesAt(key, comment.value, i)
      && (forall j: nat :: j < i ==> !MatchesAt(key, comment.value, j))
      && r.value == [comment.value[i + |Opening(key)|]]
  {
    match comment
    case None => None
    case Some(s) =>
      match FirstMatch(key, s, 0)
      case None => None
      case Some(i) => Some([s[i + |Opening(key)|]])
  }

  /** The rule one column contributes (`columns.each` body), or the failure it raises. */
  function ColumnRule(c: Column): (r: Result<Option<Rule>, MissingMessage>)
    ensures Skipped(c) ==> r == Success(None)
    ensures !Skipped(c) ==> (r.Success? <==> ExtractMessage(MessageKey(c), c.comment).Some?)
    ensures !Skipped(c) && r.Failure? ==> r.error == MissingMessage(MessageKey(c), c.comment)
    ensures !Skipped(c) && r.Success? ==> r.value.Some?
    ensures r.Success? && r.value.Some? ==>
      && r.value.value.attribute == StripIdSuffix(c.name)
      && r.value.value.message == ExtractMessage(MessageKey(c), c.comment).value
      && |r.value.value.message| == 1
      && (r.value.value.Absence? <==> c.nullable == Some(true))
      && (r.value.value.Presence? <==> c.nullable == Some(false))
  {
    if Excluded(c.name) then Success(None)
    else match c.nullable
      case None => Success(None)
      case Some(allowsNull) =>
        var name := StripIdSuffix(c.name);
        var key := if allowsNull then AbsenceKey else PresenceKey;
        match ExtractMessage(key, c.comment)
        case None => Failure(MissingMessage(key, c.comment))
        case Some(message) =>
          Success(Some(if allowsNull then Absence(name, message) else Presence(name, message)))
  }

  /** Every index the database reports names at least one column. */
  predicate WellFormed(idx: Index) {
    |idx.columns| > 0
  }

  /** The rule one index contributes (`indexes.each` body), or the failure it raises. */
  function IndexRule(idx: Index): (r: Result<Option<Rule>, MissingMessage>)
    requires WellFormed(idx)
    ensures !idx.unique ==> r == Success(None)
    ensures idx.unique ==> (r.Success? <==> ExtractMessage(UniquenessKey, idx.comment).Some?)
    ensures idx.unique && r.Failure? ==> r.error == MissingMessage(UniquenessKey, idx.comment)
    ensures idx.unique && r.Success? ==>
      && r.value.Some? && r.value.value.Uniqueness?
      && r.value.value.attribute == idx.columns[0]
      && r.value.value.scope == idx.columns[1..]
      && r.value.value.message == ExtractMessage(UniquenessKey, idx.comment).value
      && |r.value.value.message| == 1
  {
    if !idx.unique then Success(None)
    else match ExtractMessage(UniquenessKey, idx.comment)
      case None => Failure(MissingMessage(UniquenessKey, idx.comment))
      case Some(message) => Success(Some(Uniqueness(idx.columns[0], idx.columns[1..], message)))
  }

  function AsList(r: Result<Option<Rule>, MissingMessage>): Outcome {
    match r
    case Failure(e) => Failure(e)
    case Success(None) => Success([])
    case Success(Some(rule)) => Success([rule])
  }

  /** Sequencing: the first failure wins, otherwise the rule lists are concatenated in order. */
  function Then(a: Outcome, b: Outcome): Outcome {
    match a
    case Failure(_) => a
    case Success(x) =>
      match b
      case Failure(_) => b
      case Success(y) => Success(x + y)
  }

  function ColumnRules(columns: seq<Column>): (r: Outcome)
    ensures r.Success? ==> |r.value| <= |columns|
    ensures r.Success? ==> forall k :: 0 <= k < |r.value| ==> r.value[k].Presence? || r.value[k].Absence?
  {
    if columns == [] then Success([])
    else Then(AsList(ColumnRule(columns[0])), ColumnRules(columns[1..]))
  }

  function IndexRules(indexes: seq<Index>): (r: Outcome)
    requires forall k :: 0 <= k < |indexes| ==> WellFormed(indexes[k])
    ensures r.Success? ==> |r.value| <= |indexes|
    ensures r.Success? ==> forall k :: 0 <= k < |r.value| ==> r.value[k].Uniqueness?
  {
    if indexes == [] then Success([])
    else Then(AsList(IndexRule(indexes[0])), IndexRules(indexes[1..]))
  }

  /** What the `included` block registers: the column rules, then the index rules. */
  function DeriveRules(columns: seq<Column>, indexes: seq<Index>): (r: Outcome)
    requires forall k :: 0 <= k < |indexes| ==> WellFormed(indexes[k])
    ensures ColumnRules(columns).Failure? ==> r == ColumnRules(columns)
    ensures r.Success? ==> |r.value| <= |columns| + |indexes|
  {
    Then(ColumnRules(columns), IndexRules(indexes))
  }

  /**
   * The `included` block: walks the columns, then the indexes, registering one
   * validator at a time and stopping at the first comment that lacks its message.
   */
  method Register(columns: seq<Column>, indexes: seq<Index>) returns (r: Outcome)
    requires forall k :: 0 <= k < |indexes| ==> WellFormed(indexes[k])
    ensures r == DeriveRules(columns, indexes)
  {
    var rules: seq<Rule> := [];
    var i := 0;
    while i < |columns|
      invariant 0 <= i <= |columns|
      invariant ColumnRules(columns[..i]) == Success(rules)
    {
      var column := columns[i];
      ColumnRulesSnoc(columns, i);
      ThenUnit(Success(rules));
      if !Excluded(column.name) && column.nullable.Some? {
        var name := StripIdSuffix(column.name);
        var key := if column.nullable.value then AbsenceKey else PresenceKey;
        var message := ExtractMessage(key, column.comment);
        if message.None? {
          ColumnFailureDecides(columns, i, indexes);
          return Failure(MissingMessage(key, column.comment));
        }
        if column.nullable.value {
          rules := rules + [Absence(name, message.value)];
        } else {
          rules := rules + [Presence(name, message.value)];
        }
      }
      i := i + 1;
    }
    assert columns[..i] == columns;
    assert indexes[..0] == [];
    ThenUnit(Success(rules));
    var j := 0;
    while j < |indexes|
      invariant 0 <= j <= |indexes|
      invariant Then(ColumnRules(columns), IndexRules(indexes[..j])) == Success(rules)
    {
      var idx := indexes[j];
      IndexRulesSnoc(columns, indexes, j);
      ThenUnit(Success(rules));
      if idx.unique {
        var message := ExtractMessage(UniquenessKey, idx.comment);
        if message.None? {
          IndexFailureDecides(columns, indexes, j);
          return Failure(MissingMessage(UniquenessKey, idx.comment));
        }
        rules := rules + [Uniqueness(idx.columns[0], idx.columns[1..], message.value)];
      }
      j := j + 1;
    }
    assert indexes[..j] == indexes;
    r := Success(rules);
  }

  /** One more column: the rules of the longer prefix are the shorter prefix's, then that column's. */
  lemma ColumnRulesSnoc(columns: seq<Column>, i: nat)
    requires i < |columns|
    ensures ColumnRules(columns[..i + 1]) == Then(ColumnRules(columns[..i]), AsList(ColumnRule(columns[i])))
  {
    assert columns[..i + 1] == columns[..i] + [columns[i]];
    ColumnRulesAppend(columns[..i], [columns[i]]);
    assert [columns[i]][1..] == [];
    ThenUnit(AsList(ColumnRule(columns[i])));
  }

  /** When every column before it succeeds, a column that fails decides the whole derivation. */
  lemma ColumnFailureDecides(columns: seq<Column>, i: nat, indexes: seq<Index>)
    requires forall k :: 0 <= k < |indexes| ==> WellFormed(indexes[k])
    requires i < |columns| && ColumnRules(columns[..i]).Success? && ColumnRule(columns[i]).Failure?
    ensures DeriveRules(columns, indexes) == Failure(ColumnRule(columns[i]).error)
  {
    ColumnRulesSnoc(columns, i);
    ColumnRulesSplit(columns, i + 1);
  }

  /** The column walk over `columns` is the walk over its first `i` columns, then the rest. */
  lemma ColumnRulesSplit(columns: seq<Column>, i: nat)
    requires i <= |columns|
    ensures ColumnRules(columns) == Then(ColumnRules(columns[..i]), ColumnRules(columns[i..]))
  {
    assert columns == columns[..i] + columns[i..];
    ColumnRulesAppend(columns[..i], columns[i..]);
  }

  /** One more index, after all the columns. */
  lemma IndexRulesSnoc(columns: seq<Column>, indexes: seq<Index>, j: nat)
    requires forall k :: 0 <= k < |indexes| ==> WellFormed(indexes[k])
    requires j < |indexes|
    ensures Then(ColumnRules(columns), IndexRules(indexes[..j + 1])) ==
      Then(Then(ColumnRules(columns), IndexRules(indexes[..j])), AsList(IndexRule(indexes[j])))
  {
    assert indexes[..j + 1] == indexes[..j] + [indexes[j]];
    IndexRulesAppend(indexes[..j], [indexes[j]]);
    assert [indexes[j]][1..] == [];
    ThenUnit(AsList(IndexRule(indexes[j])));
    ThenAssociative(ColumnRules(columns), IndexRules(indexes[..j]), AsList(IndexRule(indexes[j])));
  }

  /** When everything before it succeeds, an index that fails decides the whole derivation. */
  lemma IndexFailureDecides(columns: seq<Column>, indexes: seq<Index>, j: nat)
    requires forall k :: 0 <= k < |indexes| ==> WellFormed(indexes[k])
    requires j < |indexes| && Then(ColumnRules(columns), IndexRules(indexes[..j])).Success?
    requires IndexRule(indexes[j]).Failure?
    ensures DeriveRules(columns, indexes) == Failure(IndexRule(indexes[j]).error)
  {
    IndexRulesSnoc(columns, indexes, j);
    IndexRulesSplit(indexes, j + 1);
    ThenAssociative(ColumnRules(columns), IndexRules(indexes[..j + 1]), IndexRules(indexes[j + 1..]));
  }

  /** The index walk over `indexes` is the walk over its first `j` indexes, then the rest. */
  lemma IndexRulesSplit(indexes: seq<Index>, j: nat)
    requires forall k :: 0 <= k < |indexes| ==> WellFormed(indexes[k])
    requires j <= |indexes|
    ensures IndexRules(indexes) == Then(IndexRules(indexes[..j]), IndexRules(indexes[j..]))
  {
    assert indexes == indexes[..j] + indexes[j..];
    IndexRulesAppend(indexes[..j], indexes[j..]);
  }

  lemma ThenAssociative(a: Outcome, b: Outcome, c: Outcome)
    ensures Then(Then(a, b), c) == Then(a, Then(b, c))
  {
    if a.Success? && b.Success? && c.Success? {
      assert a.value + b.value + c.value == a.value + (b.value + c.value);
    }
  }

  lemma ThenUnit(a: Outcome)
    ensures Then(Success([]), a) == a && Then(a, Success([])) == a
  {
    if a.Success? {
      assert [] + a.value == a.value && a.value + [] == a.value;
    }
  }

  /** Column order is kept: the rules of `a + b` are those of `a` followed by those of `b`. */
  lemma {:induction false} ColumnRulesAppend(a: seq<Column>, b: seq<Column>)
    ensures ColumnRules(a + b) == Then(ColumnRules(a), ColumnRules(b))
  {
    if a == [] {
      assert a + b == b;
      ThenUnit(ColumnRules(b));
    } else {
      assert (a + b)[0] == a[0] && (a + b)[1..] == a[1..] + b;
      ColumnRulesAppend(a[1..], b);
      ThenAssociative(AsList(ColumnRule(a[0])), ColumnRules(a[1..]), ColumnRules(b));
    }
  }

  /** Index order is kept: the rules of `a + b` are those of `a` followed by those of `b`. */
  lemma {:induction false} IndexRulesAppend(a: seq<Index>, b: seq<Index>)
    requires forall k :: 0 <= k < |a| ==> WellFormed(a[k])
    requires forall k :: 0 <= k < |b| ==> WellFormed(b[k])
    ensures forall k :: 0 <= k < |a + b| ==> WellFormed((a + b)[k])
    ensures IndexRules(a + b) == Then(IndexRules(a), IndexRules(b))
  {
    assert forall k :: 0 <= k < |a + b| ==> (a + b)[k] == if k < |a| then a[k] else b[k - |a|];
    if a == [] {
      assert a + b == b;
      ThenUnit(IndexRules(b));
    } else {
      assert (a + b)[0] == a[0] && (a + b)[1..] == a[1..] + b;
      IndexRulesAppend(a[1..], b);
      ThenAssociative(AsList(IndexRule(a[0])), IndexRules(a[1..]), IndexRules(b));
    }
  }

  /**
   * A column named id, created_at or updated_at, or one whose nullability is
   * nil, contributes nothing wherever it stands: removing it leaves the
   * derived rules unchanged.
   */
  lemma SkippedColumnContributesNothing(before: seq<Column>, c: Column, after: seq<Column>)
    requires Skipped(c)
    ensures ColumnRules(before + [c] + after) == ColumnRules(before + after)
  {
    ColumnRulesAppend(before + [c], after);
    ColumnRulesAppend(before, [c]);
    ColumnRulesAppend(before, after);
    assert [c][1..] == [];
    ThenUnit(ColumnRules([c][1..]));
    assert ColumnRules([c]) == Success([]);
    ThenUnit(ColumnRules(before));
  }

  /** A column that needs a message from its comment but has none. */
  predicate LacksMessage(c: Column) {
    !Skipped(c) && ExtractMessage(MessageKey(c), c.comment).None?
  }

  /** A unique index whose comment lacks its uniqueness message. */
  predicate IndexLacksMessage(idx: Index) {
    idx.unique && ExtractMessage(UniquenessKey, idx.comment).None?
  }

  lemma {:induction false} ColumnRulesFailIff(columns: seq<Column>)
    ensures ColumnRules(columns).Failure? <==> exists k :: 0 <= k < |columns| && LacksMessage(columns[k])
  {
    if columns != [] {
      ColumnRulesFailIff(columns[1..]);
      SomeColumnLacksCons(columns);
    }
  }

  /** Some column lacks its message iff the first does or some later one does. */
  lemma SomeColumnLacksCons(columns: seq<Column>)
    requires columns != []
    ensures (exists k :: 0 <= k < |columns| && LacksMessage(columns[k])) <==>
      LacksMessage(columns[0]) || exists k :: 0 <= k < |columns[1..]| && LacksMessage(columns[1..][k])
  {
    if exists k :: 0 <= k < |columns| && LacksMessage(columns[k]) {
      var k :| 0 <= k < |columns| && LacksMessage(columns[k]);
      if k > 0 {
        assert LacksMessage(columns[1..][k - 1]);
      }
    }
    if exists k :: 0 <= k < |columns[1..]| && LacksMessage(columns[1..][k]) {
      var k :| 0 <= k < |columns[1..]| && LacksMessage(columns[1..][k]);
      assert LacksMessage(columns[k + 1]);
    }
  }

  lemma {:induction false} IndexRulesFailIff(indexes: seq<Index>)
    requires forall k :: 0 <= k < |indexes| ==> WellFormed(indexes[k])
    ensures IndexRules(indexes).Failure? <==> exists k :: 0 <= k < |indexes| && IndexLacksMessage(indexes[k])
  {
    if indexes != [] {
      IndexRulesFailIff(indexes[1..]);
      if exists k :: 1 <= k < |indexes| && IndexLacksMessage(indexes[k]) {
        var k :| 1 <= k < |indexes| && IndexLacksMessage(indexes[k]);
        assert IndexLacksMessage(indexes[1..][k - 1]);
      }
      if exists k :: 0 <= k < |indexes[1..]| && IndexLacksMessage(indexes[1..][k]) {
        var k :| 0 <= k < |indexes[1..]| && IndexLacksMessage(indexes[1..][k]);
        assert IndexLacksMessage(indexes[k + 1]);
      }
    }
  }

  /**
   * The walk stops at the first column lacking its message: that column's
   * error is the one the derivation raises.
   */
  lemma {:induction false} ColumnRulesFirstFailure(columns: seq<Column>, k: nat)
    requires k < |columns| && LacksMessage(columns[k])
    requires forall j :: 0 <= j < k ==> !LacksMessage(columns[j])
    ensures ColumnRules(columns) == Failure(MissingMessage(MessageKey(columns[k]), columns[k].comment))
  {
    if k > 0 {
      assert columns[1..][k - 1] == columns[k];
      assert forall j :: 0 <= j < k - 1 ==> columns[1..][j] == columns[j + 1];
      ColumnRulesFirstFailure(columns[1..], k - 1);
      assert !LacksMessage(columns[0]);
    }
  }

  /**
   * The index walk stops at the first unique index lacking its message: that
   * index's error is the one raised.
   */
  lemma {:induction false} IndexRulesFirstFailure(indexes: seq<Index>, k: nat)
    requires forall j :: 0 <= j < |indexes| ==> WellFormed(indexes[j])
    requires k < |indexes| && IndexLacksMessage(indexes[k])
    requires forall j :: 0 <= j < k ==> !IndexLacksMessage(indexes[j])
    ensures IndexRules(indexes) == Failure(MissingMessage(UniquenessKey, indexes[k].comment))
  {
    if k > 0 {
      assert indexes[1..][k - 1] == indexes[k];
      assert forall j :: 0 <= j < k - 1 ==> indexes[1..][j] == indexes[j + 1];
      IndexRulesFirstFailure(indexes[1..], k - 1);
      assert !IndexLacksMessage(indexes[0]);
    }
  }

  /**
   * No fallback: derivation fails exactly when some validated column or some
   * unique index lacks its message; otherwise it yields the column rules
   * followed by the index rules.
   */
  lemma DeriveFailsIffMessageMissing(columns: seq<Column>, indexes: seq<Index>)
    requires forall k :: 0 <= k < |indexes| ==> WellFormed(indexes[k])
    ensures DeriveRules(columns, indexes).Failure? <==>
      (exists k :: 0 <= k < |columns| && LacksMessage(columns[k])) ||
      (exists k :: 0 <= k < |indexes| && IndexLacksMessage(indexes[k]))
    ensures DeriveRules(columns, indexes).Success? ==>
      DeriveRules(columns, indexes).value == ColumnRules(columns).value + IndexRules(indexes).value
  {
    ColumnRulesFailIff(columns);
    IndexRulesFailIff(indexes);
  }

  /**
   * The pattern captures exactly one character: a comment carrying the
   * message `m` (no double quote in it) yields `m` when `m` is one character
   * long, and fails for every other length, including the empty message.
   */
  lemma OnlySingleCharacterMessages(key: string, m: string)
    requires '"' !in key && '"' !in m
    ensures ExtractMessage(key, Some(Opening(key) + m + "\"")) == if |m| == 1 then Some(m) else None
  {
    var s := Opening(key) + m + "\"";
    var n := |Opening(key)|;
    assert n == |key| + 3;
    assert s[..n] == Opening(key);
    assert forall p :: 0 <= p < |s| && s[p] == '"' ==> p == n - 1 || p == |s| - 1;
    assert Opening(key)[n - 1] == '"';
    forall i: nat | 0 < i && i + n + 2 <= |s|
      ensures !OpensAt(key, s, i)
    {
      assert s[i + n - 1] != '"';
      assert s[i..i + n][n - 1] == s[i + n - 1];
    }
    assert forall i: nat :: 0 < i ==> !MatchesAt(key, s, i);
    if |m| == 1 {
      assert MatchesAt(key, s, 0);
      assert s[n] == m[0];
      assert [s[n]] == m;
    } else {
      assert !MatchesAt(key, s, 0) by {
        if |m| == 0 {
          assert s[n] == '"';
        } else if n + 2 <= |s| {
          assert s[n + 1] == m[1];
        }
      }
    }
  }
}
