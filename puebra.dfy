/**
 * puebra.py: a script that asks a chat model for multiple-choice questions, 50
 * per category, and writes them to a CSV file.
 *
 * The chat model's replies are parameters: `replies[c][i]` is the message
 * content returned for the i-th request about the c-th category.
 */
module Puebra {
  import Text

  const Categories: seq<string> := [
    "Science", "History", "Geography", "Art", "Sports", "Technology",
    "Mathematics", "Literature", "Movies", "Music", "Nature", "Politics",
    "Economics", "Philosophy", "Psychology", "Religion", "Astronomy",
    "Medicine", "Law", "Business", "Programming", "Engineering",
    "Health", "Physics", "Chemistry", "Biology", "Environmental Science",
    "Languages", "Sociology", "Anthropology", "Archaeology", "Statistics",
    "Data Science", "Astronautics", "Gaming", "Mythology", "Trivia",
    "Cooking", "Food & Drink", "Fashion", "Photography", "Pets",
    "Travel", "Hobbies", "DIY", "Education", "Fitness", "Life Skills",
    "Current Events", "World Cultures", "Architecture", "Famous People", "Pop Culture"
  ]

  /** Requests made for each category by `generate_all_questions`. */
  const PerCategory: nat := 50

  /** One generated question: the dictionary with keys category, question and answers. */
  datatype Entry = Entry(category: string, question: string, answers: seq<string>)

  /** The reply, stripped and cut at line breaks: the first line is the question, the others the answers. */
  function EntryFrom(category: string, content: string): Entry
  {
    var lines := Text.SplitOn(Text.Strip(content), '\n');
    Entry(category, lines[0], lines[1..])
  }

  /**
   * Nothing of the reply is lost but the surrounding whitespace: joining the
   * question and the answers with line breaks gives the stripped reply, and no
   * line holds a line break.
   */
  lemma EntryFromLines(category: string, content: string)
    ensures var e := EntryFrom(category, content);
      e.category == category
      && Text.JoinWith([e.question] + e.answers, '\n') == Text.Strip(content)
      && '\n' !in e.question && forall k :: 0 <= k < |e.answers| ==> '\n' !in e.answers[k]
  {
    var lines := Text.SplitOn(Text.Strip(content), '\n');
    Text.JoinSplit(Text.Strip(content), '\n');
    Text.SplitPieces(Text.Strip(content), '\n');
    assert lines == [lines[0]] + lines[1..];
    assert forall k :: 0 <= k < |lines| - 1 ==> lines[1..][k] == lines[k + 1];
  }

  /** A one-line reply is a question with no answers. */
  lemma OneLineReplyHasNoAnswers(category: string, content: string)
    requires '\n' !in Text.Strip(content)
    ensures EntryFrom(category, content) == Entry(category, Text.Strip(content), [])
  {
    Text.SplitNoSeparator(Text.Strip(content), '\n');
  }

  /** A reply of n + 1 lines yields exactly n answers. */
  lemma AnswerCount(category: string, content: string)
    ensures |EntryFrom(category, content).answers| == multiset(Text.Strip(content))['\n']
  {
    Text.SplitCount(Text.Strip(content), '\n');
  }

  /** The entries made from a list of replies about one category, in order. */
  function Entries(category: string, contents: seq<string>): (es: seq<Entry>)
    ensures |es| == |contents|
  {
    seq(|contents|, i requires 0 <= i < |contents| => EntryFrom(category, contents[i]))
  }

  /** `generate_questions(category, n)`: one entry per request, in order. */
  method GenerateQuestions(category: string, num: nat, contents: seq<string>) returns (questions: seq<Entry>)
    requires |contents| == num
    ensures questions == Entries(category, contents)
  {
    questions := [];
    for i := 0 to num
      invariant questions == Entries(category, contents)[..i]
    {
      var question := EntryFrom(category, contents[i]);
      questions := questions + [question];
    }
  }

  /** The entries for the first |replies| categories of `cats`, category by category. */
  function AllEntries(cats: seq<string>, replies: seq<seq<string>>): seq<Entry>
    requires |replies| <= |cats|
  {
    if replies == [] then [] else AllEntries(cats, replies[..|replies| - 1]) + Entries(cats[|replies| - 1], replies[|replies| - 1])
  }

  /**
   * `generate_all_questions`: the 50 entries of each category, categories in
   * the order of the list.
   */
  method GenerateAllQuestions(replies: seq<seq<string>>) returns (all: seq<Entry>)
    requires |replies| == |Categories|
    requires forall c :: 0 <= c < |replies| ==> |replies[c]| == PerCategory
    ensures all == AllEntries(Categories, replies)
  {
    all := GenerateFor(Categories, replies);
  }

  /** The loop of `generate_all_questions` over a list of categories. */
  method GenerateFor(cats: seq<string>, replies: seq<seq<string>>) returns (all: seq<Entry>)
    requires |replies| == |cats|
    requires forall c :: 0 <= c < |replies| ==> |replies[c]| == PerCategory
    ensures all == AllEntries(cats, replies)
  {
    all := [];
    for c := 0 to |cats|
      invariant all == AllEntries(cats, replies[..c])
    {
      var categoryQuestions := GenerateQuestions(cats[c], PerCategory, replies[c]);
      assert replies[..c + 1][..c] == replies[..c];
      all := all + categoryQuestions;
    }
    assert replies[..|cats|] == replies;
  }

  /** Entry 50 * c + i of the whole list comes from the i-th reply about category c. */
  lemma {:induction false} AllEntriesAt(cats: seq<string>, replies: seq<seq<string>>)
    requires |replies| <= |cats|
    requires forall c :: 0 <= c < |replies| ==> |replies[c]| == PerCategory
    ensures |AllEntries(cats, replies)| == PerCategory * |replies|
    ensures forall c, i :: 0 <= c < |replies| && 0 <= i < PerCategory ==>
      AllEntries(cats, replies)[PerCategory * c + i] == EntryFrom(cats[c], replies[c][i])
  {
    if replies != [] {
      var last := |replies| - 1;
      var init := replies[..last];
      AllEntriesAt(cats, init);
      var front := AllEntries(cats, init);
      var block := Entries(cats[last], replies[last]);
      var whole := AllEntries(cats, replies);
      assert whole == front + block;
      forall c, i | 0 <= c < |replies| && 0 <= i < PerCategory
        ensures whole[PerCategory * c + i] == EntryFrom(cats[c], replies[c][i])
      {
        if c < last {
          assert PerCategory * c + i < |front|;
          assert whole[PerCategory * c + i] == front[PerCategory * c + i];
          assert init[c] == replies[c];
        } else {
          assert PerCategory * c + i == |front| + i;
          assert whole[PerCategory * c + i] == block[i];
        }
      }
    }
  }

  // ---------------------------------------------------------------------
  // The CSV file

  const Header: seq<string> := ["Category", "Question", "Answer 1", "Answer 2", "Answer 3", "Answer 4"]

  /** The row of an entry with at least four answers: answers past the fourth are dropped. */
  function Row(e: Entry): (row: seq<string>)
    requires |e.answers| >= 4
    ensures |row| == |Header| && row[0] == e.category && row[1] == e.question && row[2..] == e.answers[..4]
  {
    [e.category, e.question, e.answers[0], e.answers[1], e.answers[2], e.answers[3]]
  }

  /** The position of the first entry with fewer than four answers, the one that raises IndexError. */
  function FirstShort(entries: seq<Entry>): (r: nat)
    ensures r <= |entries|
    ensures forall i :: 0 <= i < r ==> |entries[i].answers| >= 4
    ensures r < |entries| ==> |entries[r].answers| < 4
  {
    if entries == [] || |entries[0].answers| < 4 then 0 else 1 + FirstShort(entries[1..])
  }

  /**
   * `save_to_csv`: the rows written, header first, and whether the loop stopped
   * with IndexError. The rows written before the failing entry stay in the file.
   */
  method SaveToCsv(questions: seq<Entry>) returns (rows: seq<seq<string>>, failed: bool)
    ensures failed <==> exists i :: 0 <= i < |questions| && |questions[i].answers| < 4
    ensures |rows| == 1 + FirstShort(questions) && rows[0] == Header
    ensures forall i :: 0 <= i < FirstShort(questions) ==> rows[i + 1] == Row(questions[i])
  {
    rows := [Header];
    var i := 0;
    while i < |questions|
      invariant i <= FirstShort(questions)
      invariant |rows| == 1 + i && rows[0] == Header
      invariant forall j :: 0 <= j < i ==> rows[j + 1] == Row(questions[j])
    {
      if |questions[i].answers| < 4 {
        return rows, true;
      }
      rows := rows + [Row(questions[i])];
      i := i + 1;
    }
    failed := false;
  }

  /**
   * The file gets a row for every entry exactly when every reply has at least
   * four line breaks (five lines) after stripping.
   */
  lemma FullFileWhenRepliesComplete(category: string, contents: seq<string>)
    ensures FirstShort(Entries(category, contents)) == |contents|
      <==> forall i :: 0 <= i < |contents| ==> multiset(Text.Strip(contents[i]))['\n'] >= 4
  {
    var entries := Entries(category, contents);
    forall i | 0 <= i < |contents| ensures |entries[i].answers| == multiset(Text.Strip(contents[i]))['\n'] {
      AnswerCount(category, contents[i]);
    }
    if forall i :: 0 <= i < |contents| ==> multiset(Text.Strip(contents[i]))['\n'] >= 4 {
      FirstShortAll(entries);
    }
  }

  /**
   * The file `main` writes, over every category: it gets a row for every entry
   * exactly when every reply of every category has at least four line breaks
   * after stripping.
   */
  lemma {:induction false} WholeFileWhenRepliesComplete(cats: seq<string>, replies: seq<seq<string>>)
    requires |replies| <= |cats|
    ensures FirstShort(AllEntries(cats, replies)) == |AllEntries(cats, replies)|
      <==> forall c, i :: 0 <= c < |replies| && 0 <= i < |replies[c]| ==> multiset(Text.Strip(replies[c][i]))['\n'] >= 4
    decreases |replies|
  {
    if replies != [] {
      var n := |replies| - 1;
      var init := replies[..n];
      WholeFileWhenRepliesComplete(cats, init);
      FullFileWhenRepliesComplete(cats[n], replies[n]);
      FirstShortConcat(AllEntries(cats, init), Entries(cats[n], replies[n]));
      assert forall c :: 0 <= c < n ==> init[c] == replies[c];
    }
  }

  /** No entry is short exactly when the file gets every row. */
  lemma FirstShortFull(entries: seq<Entry>)
    ensures FirstShort(entries) == |entries| <==> forall k :: 0 <= k < |entries| ==> |entries[k].answers| >= 4
  {
    if forall k :: 0 <= k < |entries| ==> |entries[k].answers| >= 4 {
      FirstShortAll(entries);
    }
  }

  /** Two lists of entries written one after the other are complete exactly when each is. */
  lemma FirstShortConcat(a: seq<Entry>, b: seq<Entry>)
    ensures FirstShort(a + b) == |a + b| <==> FirstShort(a) == |a| && FirstShort(b) == |b|
  {
    FirstShortFull(a);
    FirstShortFull(b);
    FirstShortFull(a + b);
    assert forall k :: 0 <= k < |a| ==> (a + b)[k] == a[k];
    assert forall k :: 0 <= k < |b| ==> (a + b)[|a| + k] == b[k];
  }

  lemma {:induction false} FirstShortAll(entries: seq<Entry>)
    requires forall i :: 0 <= i < |entries| ==> |entries[i].answers| >= 4
    ensures FirstShort(entries) == |entries|
  {
    if entries != [] {
      FirstShortAll(entries[1..]);
    }
  }
}
