// The transaction manager: Coda cannot roll a write back, so a rollback after one throws.
module Transactions {
  import opened AsciiText
  import opened SchemaIndex
  import opened Sequences
  import opened Wrappers

  // rust_ext_supports_explicit_transactions, rust_ext_supports_transaction_rollback
  const SUPPORTS_EXPLICIT_TRANSACTIONS: bool := false
  const SUPPORTS_TRANSACTION_ROLLBACK: bool := false

  // What the extension sees of a client: its mode and the text of its current query.
  datatype Context = Context(autoCommit: bool, query: string)

  predicate FoundAt(s: string, part: string, i: nat) {
    i + |part| <= |s| && s[i..i + |part|] == part
  }

  predicate Contains(s: string, part: string) {
    exists i: nat :: i <= |s| && FoundAt(s, part, i)
  }

  // RejectExplicitTransaction: besides the mode, the query text itself is searched.
  predicate Rejected(context: Context) {
    var query := Fold(context.query);
    !SUPPORTS_EXPLICIT_TRANSACTIONS
    && (!context.autoCommit || Contains(query, "begin") || Contains(query, "rollback") || Contains(query, "commit"))
  }

  // The word stands in the text, in whatever case.
  predicate MentionedAt(text: string, word: string, i: nat) {
    i + |word| <= |text| && EqIgnoreCase(text[i..i + |word|], word)
  }

  ghost predicate Mentions(text: string, word: string) {
    exists i: nat :: MentionedAt(text, word, i)
  }

  lemma {:induction false} FoldAt(s: string, i: nat)
    requires i < |s|
    ensures |Fold(s)| == |s| && Fold(s)[i] == ToLower(s[i])
  {
    MapAt(ToLower, s, i);
  }

  lemma {:induction false} FoundIsMentioned(text: string, word: string, i: nat)
    requires i + |word| <= |text| && forall j :: 0 <= j < |word| ==> ToLower(word[j]) == word[j]
    ensures FoundAt(Fold(text), word, i) <==> MentionedAt(text, word, i)
  {
    forall j | 0 <= j < |text| ensures Fold(text)[j] == ToLower(text[j]) {
      FoldAt(text, j);
    }
    var part, folded := text[i..i + |word|], Fold(text)[i..i + |word|];
    assert forall j :: 0 <= j < |word| ==> part[j] == text[i + j] && folded[j] == ToLower(text[i + j]);
    if EqIgnoreCase(part, word) {
      assert folded == word;
    }
  }

  lemma {:induction false} ContainsIsMentions(text: string, word: string)
    requires forall j :: 0 <= j < |word| ==> ToLower(word[j]) == word[j]
    ensures Contains(Fold(text), word) <==> Mentions(text, word)
  {
    if i: nat :| i <= |Fold(text)| && FoundAt(Fold(text), word, i) {
      FoundIsMentioned(text, word, i);
    }
    if i: nat :| MentionedAt(text, word, i) {
      FoundIsMentioned(text, word, i);
      assert FoundAt(Fold(text), word, i) && i <= |Fold(text)|;
    }
  }

  // A statement is rejected exactly outside autocommit mode, or when its text mentions one of the
  // three words.
  lemma {:induction false} RejectedIff(context: Context)
    ensures Rejected(context)
            <==> || !context.autoCommit || Mentions(context.query, "begin") || Mentions(context.query, "rollback")
                 || Mentions(context.query, "commit")
  {
    LowerWords();
    ContainsIsMentions(context.query, "begin");
    ContainsIsMentions(context.query, "rollback");
    ContainsIsMentions(context.query, "commit");
  }

  lemma {:induction false} LowerWords()
    ensures forall j :: 0 <= j < |"begin"| ==> ToLower("begin"[j]) == "begin"[j]
    ensures forall j :: 0 <= j < |"rollback"| ==> ToLower("rollback"[j]) == "rollback"[j]
    ensures forall j :: 0 <= j < |"commit"| ==> ToLower("commit"[j]) == "commit"[j]
  {
  }

  class Transaction {
    var hasWrites: bool

    constructor ()
      ensures !hasWrites
    {
      hasWrites := false;
    }

    method MarkWrite()
      modifies this
      ensures hasWrites
    {
      hasWrites := true;
    }

    method Rollback() returns (r: Result<(), Error>)
      ensures r == if hasWrites then Failure(RollbackUnsupported) else Success(())
    {
      if hasWrites && !SUPPORTS_TRANSACTION_ROLLBACK {
        return Failure(RollbackUnsupported);
      }
      r := Success(());
    }
  }

  class TransactionManager {
    var transactions: set<Transaction>

    constructor ()
      ensures transactions == {}
    {
      transactions := {};
    }

    method StartTransaction(context: Context) returns (r: Result<Transaction, Error>)
      modifies this
      ensures !context.autoCommit ==> r == Failure(ExplicitTransaction) && transactions == old(transactions)
      ensures context.autoCommit ==>
                r.Success? && fresh(r.value) && !r.value.hasWrites && transactions == old(transactions) + {r.value}
    {
      if !SUPPORTS_EXPLICIT_TRANSACTIONS && !context.autoCommit {
        return Failure(ExplicitTransaction);
      }
      var transaction := new Transaction();
      transactions := transactions + {transaction};
      r := Success(transaction);
    }

    method CommitTransaction(transaction: Transaction)
      modifies this
      ensures transactions == old(transactions) - {transaction}
    {
      transactions := transactions - {transaction};
    }

    // The entry goes away whether or not the rollback throws.
    method RollbackTransaction(transaction: Transaction) returns (r: Result<(), Error>)
      modifies this
      ensures transactions == old(transactions) - {transaction}
      ensures r == if transaction.hasWrites then Failure(RollbackUnsupported) else Success(())
    {
      r := transaction.Rollback();
      transactions := transactions - {transaction};
    }
  }

  lemma {:induction false} ContainsInside(before: string, part: string, after: string)
    ensures Contains(before + part + after, part)
  {
    var s := before + part + after;
    assert FoundAt(s, part, |before|);
  }

  // The text search also refuses statements that only mention such a word: an autocommit
  // insert of the value 'committee' is one.
  lemma AutocommitStatementRejected()
    ensures Rejected(Context(true, "insert into t values ('committee')"))
  {
    var query := "insert into t values ('committee')";
    assert query == "insert into t values ('" + "commit" + "tee')";
    assert forall i :: 0 <= i < |query| ==> ToLower(query[i]) == query[i];
    FoldLower(query);
    ContainsInside("insert into t values ('", "commit", "tee')");
  }

  lemma {:induction false} FoldLower(s: string)
    requires forall i :: 0 <= i < |s| ==> ToLower(s[i]) == s[i]
    ensures Fold(s) == s
  {
    if s != [] {
      FoldLower(s[..|s| - 1]);
    }
  }
}
