/**
 The full-text side of the catalogue (internal/store/store.go): the virtual table `torrents_fts`
 as real postings, the two commands the triggers send to it, and the evaluation of a MATCH.

 The tokenizer is a parameter: every result holds for every function from text to tokens.
 */
module Fts {

  type Token = string

  type Tokenizer = string -> seq<Token>

  /** The implicit rowid of a table row. */
  datatype Rowid = Rowid(n: nat)

  datatype Column = Title | Description | Category

  /** The indexed columns of one row. */
  datatype Doc = Doc(title: string, description: string, category: string) {
    function Text(col: Column): string {
      match col
      case Title => title
      case Description => description
      case Category => category
    }
  }

  datatype Posting = Posting(rowid: Rowid, col: Column, pos: nat)

  type Index = map<Token, set<Posting>>

  predicate Has(index: Index, tok: Token, p: Posting) {
    tok in index && p in index[tok]
  }

  predicate Occurs(tk: Tokenizer, doc: Doc, tok: Token, col: Column, pos: nat) {
    pos < |tk(doc.Text(col))| && tk(doc.Text(col))[pos] == tok
  }

  /** No posting list is kept once it is empty, so two indexes with the same postings are equal. */
  predicate Canonical(index: Index) {
    forall tok | tok in index :: index[tok] != {}
  }

  /** The index holds exactly the postings of the rows of the content table. */
  ghost predicate Agrees(tk: Tokenizer, docs: map<Rowid, Doc>, index: Index) {
    && Canonical(index)
    && forall tok, p :: Has(index, tok, p) <==> p.rowid in docs && Occurs(tk, docs[p.rowid], tok, p.col, p.pos)
  }

  /** `after` is `before` with the postings of `doc` under `rowid` put in. */
  ghost predicate Inserted(tk: Tokenizer, before: Index, after: Index, rowid: Rowid, doc: Doc) {
    forall tok, p :: Has(after, tok, p) <==>
                     Has(before, tok, p) || (p.rowid == rowid && Occurs(tk, doc, tok, p.col, p.pos))
  }

  /** `after` is `before` with the postings of the supplied text taken out, whatever the row holds. */
  ghost predicate Deleted(tk: Tokenizer, before: Index, after: Index, rowid: Rowid, supplied: Doc) {
    forall tok, p :: Has(after, tok, p) <==>
                     Has(before, tok, p) && !(p.rowid == rowid && Occurs(tk, supplied, tok, p.col, p.pos))
  }

  function Put(index: Index, tok: Token, p: Posting): (r: Index)
    requires Canonical(index)
    ensures Canonical(r)
    ensures forall t, q :: Has(r, t, q) <==> Has(index, t, q) || (t == tok && q == p)
  {
    index[tok := Postings(index, tok) + {p}]
  }

  function Cut(index: Index, tok: Token, p: Posting): (r: Index)
    requires Canonical(index)
    ensures Canonical(r)
    ensures forall t, q :: Has(r, t, q) <==> Has(index, t, q) && !(t == tok && q == p)
  {
    var list := Postings(index, tok) - {p};
    if list == {} then index - {tok} else index[tok := list]
  }

  class FtsIndex {
    const tokenize: Tokenizer
    var postings: Index

    constructor (tokenize: Tokenizer)
      ensures this.tokenize == tokenize && postings == map[]
    {
      this.tokenize := tokenize;
      postings := map[];
    }

    /** INSERT INTO torrents_fts(rowid, title, description, category). */
    method InsertDoc(rowid: Rowid, doc: Doc)
      requires Canonical(postings)
      modifies this
      ensures Canonical(postings)
      ensures Inserted(tokenize, old(postings), postings, rowid, doc)
    {
      AddColumn(rowid, Title, doc.title);
      AddColumn(rowid, Description, doc.description);
      AddColumn(rowid, Category, doc.category);
    }

    /** INSERT INTO torrents_fts(torrents_fts, rowid, ...) VALUES('delete', ...). */
    method DeleteDoc(rowid: Rowid, supplied: Doc)
      requires Canonical(postings)
      modifies this
      ensures Canonical(postings)
      ensures Deleted(tokenize, old(postings), postings, rowid, supplied)
    {
      RemoveColumn(rowid, Title, supplied.title);
      RemoveColumn(rowid, Description, supplied.description);
      RemoveColumn(rowid, Category, supplied.category);
    }

    method AddColumn(rowid: Rowid, col: Column, text: string)
      requires Canonical(postings)
      modifies this
      ensures Canonical(postings)
      ensures forall tok, p :: Has(postings, tok, p) <==>
                               Has(old(postings), tok, p)
                               || (p.rowid == rowid && p.col == col && p.pos < |tokenize(text)| && tokenize(text)[p.pos] == tok)
    {
      var toks := tokenize(text);
      for i := 0 to |toks|
        invariant Canonical(postings)
        invariant forall tok, p :: Has(postings, tok, p) <==>
                                   Has(old(postings), tok, p)
                                   || (p.rowid == rowid && p.col == col && p.pos < i && toks[p.pos] == tok)
      {
        postings := Put(postings, toks[i], Posting(rowid, col, i));
      }
    }

    method RemoveColumn(rowid: Rowid, col: Column, text: string)
      requires Canonical(postings)
      modifies this
      ensures Canonical(postings)
      ensures forall tok, p :: Has(postings, tok, p) <==>
                               Has(old(postings), tok, p)
                               && !(p.rowid == rowid && p.col == col && p.pos < |tokenize(text)| && tokenize(text)[p.pos] == tok)
    {
      var toks := tokenize(text);
      for i := 0 to |toks|
        invariant Canonical(postings)
        invariant forall tok, p :: Has(postings, tok, p) <==>
                                   Has(old(postings), tok, p)
                                   && !(p.rowid == rowid && p.col == col && p.pos < i && toks[p.pos] == tok)
      {
        postings := Cut(postings, toks[i], Posting(rowid, col, i));
      }
    }

    /** The rows matching every phrase that has at least one token (none if no phrase has one). */
    method Match(phrases: seq<Phrase>, ghost docs: map<Rowid, Doc>) returns (hits: set<Rowid>)
      requires Agrees(tokenize, docs, postings)
      ensures hits == set r | r in docs && DocMatches(tokenize, docs[r], phrases)
    {
      hits := {};
      var constrained := false;
      for i := 0 to |phrases|
        invariant constrained <==> exists k | 0 <= k < i :: tokenize(phrases[k].text) != []
        invariant !constrained ==> hits == {}
        invariant constrained ==>
            hits == set r | r in docs && forall k | 0 <= k < i :: PhraseHolds(tokenize, docs[r], phrases[k])
      {
        var toks := tokenize(phrases[i].text);
        if toks != [] {
          var rows := RowsOf(StartHits(postings, toks, phrases[i].prefix));
          PhraseRows(tokenize, docs, postings, phrases[i]);
          hits := if constrained then hits * rows else rows;
          constrained := true;
        }
      }
    }
  }

  // ---------------------------------------------------------------------------------------------
  // Agreement of the index with the table
  // ---------------------------------------------------------------------------------------------

  lemma AgreesAfterInsert(tk: Tokenizer, docs: map<Rowid, Doc>, before: Index, after: Index, rowid: Rowid, doc: Doc)
    requires Agrees(tk, docs, before) && rowid !in docs
    requires Canonical(after) && Inserted(tk, before, after, rowid, doc)
    ensures Agrees(tk, docs[rowid := doc], after)
  {
  }

  /** Deleting with the row's own text removes the row's postings and nothing else. */
  lemma AgreesAfterDelete(tk: Tokenizer, docs: map<Rowid, Doc>, before: Index, after: Index, rowid: Rowid)
    requires Agrees(tk, docs, before) && rowid in docs
    requires Canonical(after) && Deleted(tk, before, after, rowid, docs[rowid])
    ensures Agrees(tk, docs - {rowid}, after)
  {
  }

  /**
   Why the triggers must pass the old column values: the index agrees with the table after a delete
   exactly when the supplied text starts, column by column, with the tokens that were indexed.
   */
  lemma DeleteNeedsOldText(tk: Tokenizer, docs: map<Rowid, Doc>, before: Index, after: Index, rowid: Rowid, supplied: Doc)
    requires Agrees(tk, docs, before) && rowid in docs
    requires Canonical(after) && Deleted(tk, before, after, rowid, supplied)
    ensures Agrees(tk, docs - {rowid}, after) <==>
            forall col: Column :: tk(docs[rowid].Text(col)) <= tk(supplied.Text(col))
  {
    if Agrees(tk, docs - {rowid}, after) {
      forall col: Column
        ensures tk(docs[rowid].Text(col)) <= tk(supplied.Text(col))
      {
        var was := tk(docs[rowid].Text(col));
        var now := tk(supplied.Text(col));
        forall i | 0 <= i < |was|
          ensures Occurs(tk, supplied, was[i], col, i)
        {
          assert Has(before, was[i], Posting(rowid, col, i));
          assert !Has(after, was[i], Posting(rowid, col, i));
        }
        if was != [] {
          assert Occurs(tk, supplied, was[|was| - 1], col, |was| - 1);
        }
        assert forall i | 0 <= i < |was| :: Occurs(tk, supplied, was[i], col, i) ==> now[i] == was[i];
      }
    }
  }

  /** Two canonical indexes with the same postings are the same index. */
  lemma AgreementDetermines(tk: Tokenizer, docs: map<Rowid, Doc>, a: Index, b: Index)
    requires Agrees(tk, docs, a) && Agrees(tk, docs, b)
    ensures a == b
  {
    SubIndex(tk, docs, a, b);
    SubIndex(tk, docs, b, a);
    forall tok | tok in a || tok in b
      ensures tok in a && tok in b && a[tok] == b[tok]
    {
    }
  }

  lemma SubIndex(tk: Tokenizer, docs: map<Rowid, Doc>, a: Index, b: Index)
    requires Agrees(tk, docs, a) && Agrees(tk, docs, b)
    ensures forall tok | tok in a :: tok in b && a[tok] <= b[tok]
  {
    forall tok | tok in a
      ensures tok in b && a[tok] <= b[tok]
    {
      var q :| q in a[tok];
      assert Has(a, tok, q) && Has(b, tok, q);
      forall p | p in a[tok]
        ensures p in b[tok]
      {
        assert Has(a, tok, p) && Has(b, tok, p);
      }
    }
  }

  /** The index built from scratch out of the content table. */
  ghost function Rebuild(tk: Tokenizer, docs: map<Rowid, Doc>): Index {
    map tok | tok in AllTokens(tk, docs) ::
      set r, col, pos | r in docs && 0 <= pos < |tk(docs[r].Text(col))| && tk(docs[r].Text(col))[pos] == tok :: Posting(r, col, pos)
  }

  ghost function AllTokens(tk: Tokenizer, docs: map<Rowid, Doc>): set<Token> {
    set r, col, pos | r in docs && 0 <= pos < |tk(docs[r].Text(col))| :: tk(docs[r].Text(col))[pos]
  }

  lemma RebuildAgrees(tk: Tokenizer, docs: map<Rowid, Doc>)
    ensures Agrees(tk, docs, Rebuild(tk, docs))
  {
    var index := Rebuild(tk, docs);
    forall tok | tok in index
      ensures index[tok] != {}
    {
      var r, col, pos :| r in docs && 0 <= pos < |tk(docs[r].Text(col))| && tk(docs[r].Text(col))[pos] == tok;
      assert Posting(r, col, pos) in index[tok];
    }
    forall tok, p: Posting
      ensures Has(index, tok, p) <==> p.rowid in docs && Occurs(tk, docs[p.rowid], tok, p.col, p.pos)
    {
      if p.rowid in docs && Occurs(tk, docs[p.rowid], tok, p.col, p.pos) {
        assert tk(docs[p.rowid].Text(p.col))[p.pos] in AllTokens(tk, docs);
      }
    }
  }

  /** An index in agreement with the table is the rebuilt one. */
  lemma AgreementIsRebuild(tk: Tokenizer, docs: map<Rowid, Doc>, index: Index)
    ensures Agrees(tk, docs, index) <==> index == Rebuild(tk, docs)
  {
    RebuildAgrees(tk, docs);
    if Agrees(tk, docs, index) {
      AgreementDetermines(tk, docs, index, Rebuild(tk, docs));
    }
  }

  // ---------------------------------------------------------------------------------------------
  // MATCH
  // ---------------------------------------------------------------------------------------------

  /** A quoted string of a query; `prefix` when it is followed by a star. */
  datatype Phrase = Phrase(text: string, prefix: bool)

  function Postings(index: Index, tok: Token): set<Posting> {
    if tok in index then index[tok] else {}
  }

  /** The postings where the phrase `toks` starts: position lists are intersected one token at a time. */
  function StartHits(index: Index, toks: seq<Token>, prefix: bool): set<Posting>
    requires toks != []
  {
    if |toks| == 1 then
      if prefix then
        set tok, p | tok in index && toks[0] <= tok && p in index[tok] :: p
      else
        Postings(index, toks[0])
    else
      var rest := StartHits(index, toks[1..], prefix);
      set p | p in Postings(index, toks[0]) && Posting(p.rowid, p.col, p.pos + 1) in rest
  }

  function RowsOf(hits: set<Posting>): set<Rowid> {
    set p | p in hits :: p.rowid
  }

  /** The reference meaning of a phrase: `toks` stand at `at`, the last one possibly cut short. */
  predicate PhraseAt(text: seq<Token>, toks: seq<Token>, prefix: bool, at: nat)
    requires toks != []
  {
    var last := |toks| - 1;
    && at + |toks| <= |text|
    && text[at..at + last] == toks[..last]
    && if prefix then toks[last] <= text[at + last] else toks[last] == text[at + last]
  }

  /** A phrase holds in a row if it stands somewhere in one column; a phrase without tokens is no constraint. */
  ghost predicate PhraseHolds(tk: Tokenizer, doc: Doc, phrase: Phrase) {
    tk(phrase.text) == []
    || exists col: Column, at: nat :: PhraseAt(tk(doc.Text(col)), tk(phrase.text), phrase.prefix, at)
  }

  /** The reference meaning of a query on one row, by scanning its text. */
  ghost predicate DocMatches(tk: Tokenizer, doc: Doc, phrases: seq<Phrase>) {
    && (exists k | 0 <= k < |phrases| :: tk(phrases[k].text) != [])
    && (forall k | 0 <= k < |phrases| :: PhraseHolds(tk, doc, phrases[k]))
  }

  lemma {:induction false} StartHitsExact(tk: Tokenizer, docs: map<Rowid, Doc>, index: Index, toks: seq<Token>, prefix: bool, p: Posting)
    requires Agrees(tk, docs, index) && toks != []
    ensures p in StartHits(index, toks, prefix) <==>
            p.rowid in docs && PhraseAt(tk(docs[p.rowid].Text(p.col)), toks, prefix, p.pos)
  {
    if |toks| == 1 {
      if prefix {
        if p.rowid in docs && PhraseAt(tk(docs[p.rowid].Text(p.col)), toks, prefix, p.pos) {
          assert Has(index, tk(docs[p.rowid].Text(p.col))[p.pos], p);
        }
        forall tok | tok in index && toks[0] <= tok && p in index[tok]
          ensures p.rowid in docs && PhraseAt(tk(docs[p.rowid].Text(p.col)), toks, prefix, p.pos)
        {
          assert Has(index, tok, p);
        }
      } else {
        assert p in Postings(index, toks[0]) <==> Has(index, toks[0], p);
      }
    } else {
      var next := Posting(p.rowid, p.col, p.pos + 1);
      StartHitsExact(tk, docs, index, toks[1..], prefix, next);
      assert p in Postings(index, toks[0]) <==> Has(index, toks[0], p);
      if p.rowid in docs {
        PhraseAtStep(tk(docs[p.rowid].Text(p.col)), toks, prefix, p.pos);
      }
    }
  }

  lemma PhraseAtStep(text: seq<Token>, toks: seq<Token>, prefix: bool, at: nat)
    requires |toks| > 1
    ensures PhraseAt(text, toks, prefix, at) <==>
            at < |text| && text[at] == toks[0] && PhraseAt(text, toks[1..], prefix, at + 1)
  {
    var last := |toks| - 1;
    if at + |toks| <= |text| {
      assert text[at..at + last] == [text[at]] + text[at + 1..at + last];
      assert toks[..last] == [toks[0]] + toks[1..][..last - 1];
      assert at + 1 + (last - 1) == at + last;
    }
  }

  /** What the index finds for one phrase is what scanning the rows finds. */
  lemma PhraseRows(tk: Tokenizer, docs: map<Rowid, Doc>, index: Index, phrase: Phrase)
    requires Agrees(tk, docs, index) && tk(phrase.text) != []
    ensures RowsOf(StartHits(index, tk(phrase.text), phrase.prefix))
            == set r | r in docs && PhraseHolds(tk, docs[r], phrase)
  {
    var toks := tk(phrase.text);
    var hits := StartHits(index, toks, phrase.prefix);
    forall r | r in docs && PhraseHolds(tk, docs[r], phrase)
      ensures r in RowsOf(hits)
    {
      var col: Column, at: nat :| PhraseAt(tk(docs[r].Text(col)), toks, phrase.prefix, at);
      StartHitsExact(tk, docs, index, toks, phrase.prefix, Posting(r, col, at));
    }
    forall p | p in hits
      ensures p.rowid in docs && PhraseHolds(tk, docs[p.rowid], phrase)
    {
      StartHitsExact(tk, docs, index, toks, phrase.prefix, p);
    }
  }
}
