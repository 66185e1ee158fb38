/**
 The user's extraction intent: the four form fields and how the raw form
 strings become an intent record (main.py, `collect_user_intent`).
 */
module Intent {
  import opened Text

  /** The five choices of the output-style selector, in the order it lists them. */
  datatype Style = BulletList | NumberedList | Table | ParagraphSummary | Json

  /** The label the selector shows, which is also the string the intent stores. */
  function StyleName(style: Style): (r: string)
    ensures r != "" && '\n' !in r
  {
    match style
    case BulletList => "Bullet list"
    case NumberedList => "Numbered list"
    case Table => "Table"
    case ParagraphSummary => "Paragraph summary"
    case Json => "JSON"
  }

  const StyleOptions: seq<Style> := [BulletList, NumberedList, Table, ParagraphSummary, Json]

  /** The selector starts at index 0. */
  const DefaultStyle: Style := StyleOptions[0]

  /**
   The selector offers every style exactly once, under the five labels of
   main.py line 70, in that order, and starts on "Bullet list".
   */
  lemma SelectorOptions()
    ensures forall style: Style :: style in StyleOptions
    ensures forall i, j :: 0 <= i < j < |StyleOptions| ==> StyleOptions[i] != StyleOptions[j]
    ensures seq(|StyleOptions|, i requires 0 <= i < |StyleOptions| => StyleName(StyleOptions[i]))
         == ["Bullet list", "Numbered list", "Table", "Paragraph summary", "JSON"]
    ensures StyleName(DefaultStyle) == "Bullet list"
  {
    forall style: Style ensures style in StyleOptions {
      match style
      case BulletList => assert StyleOptions[0] == style;
      case NumberedList => assert StyleOptions[1] == style;
      case Table => assert StyleOptions[2] == style;
      case ParagraphSummary => assert StyleOptions[3] == style;
      case Json => assert StyleOptions[4] == style;
    }
  }

  /** No two styles share a label, so the stored label determines the choice. */
  lemma StyleNameInjective(a: Style, b: Style)
    ensures StyleName(a) == StyleName(b) ==> a == b
  {
  }

  /** The stored intent: the dictionary with keys goal, entities, style and notes. */
  datatype Intent = Intent(goal: string, entities: seq<string>, style: Style, notes: string)

  /** What the form holds when it is submitted: the raw widget values. */
  datatype FormInput = FormInput(goal: string, entities: string, style: Style, notes: string)

  /**
   The submission guard of lines 82 and 92: `goal.strip()` is a non-empty
   string, that is, the goal holds a character that is not whitespace.
   */
  predicate GoalGiven(goal: string)
    ensures GoalGiven(goal) <==> exists i :: 0 <= i < |goal| && !IsSpace(goal[i])
  {
    Strip(goal) != ""
  }

  /** One entity as the parser produces it: non-empty, trimmed, no comma. */
  predicate IsEntity(e: string) {
    e != "" && IsTrimmed(e) && ',' !in e
  }

  predicate AllEntities(es: seq<string>) {
    forall k :: 0 <= k < |es| ==> IsEntity(es[k])
  }

  /** What a stored intent satisfies: a non-empty trimmed goal, trimmed notes, parsed entities. */
  predicate WellFormed(i: Intent) {
    i.goal != "" && IsTrimmed(i.goal) && IsTrimmed(i.notes) && AllEntities(i.entities)
  }

  /** Stripping adds no character. */
  lemma StripAvoids(s: string, c: char)
    ensures c !in s ==> c !in Strip(s)
  {
    var r := Strip(s);
    var a := LeadingSpaces(s);
    if c in r {
      var j :| 0 <= j < |r| && r[j] == c;
      assert s[a + j] == c;
    }
  }

  /** `[t.strip() for t in tokens if t.strip()]`. */
  function StripNonBlank(tokens: seq<string>): (r: seq<string>)
    ensures |r| <= |tokens|
    ensures forall k :: 0 <= k < |r| ==> r[k] != "" && IsTrimmed(r[k])
    ensures (forall m :: 0 <= m < |tokens| ==> ',' !in tokens[m]) ==> AllEntities(r)
    decreases |tokens|
  {
    if tokens == [] then []
    else
      var head := Strip(tokens[0]);
      if head != "" then
        StripAvoids(tokens[0], ',');
        [head] + StripNonBlank(tokens[1..])
      else StripNonBlank(tokens[1..])
  }

  /** `[t.strip() for t in tokens if t.strip()]` keeps the tokens' order: it maps concatenation to concatenation. */
  lemma {:induction false} StripNonBlankAppend(a: seq<string>, b: seq<string>)
    ensures StripNonBlank(a + b) == StripNonBlank(a) + StripNonBlank(b)
    decreases |a|
  {
    if a != [] {
      assert (a + b)[0] == a[0];
      assert (a + b)[1..] == a[1..] + b;
      StripNonBlankAppend(a[1..], b);
    } else {
      assert a + b == b;
    }
  }

  /** One token gives its stripped form, or nothing when it is blank. */
  lemma StripNonBlankSingle(t: string)
    ensures StripNonBlank([t]) == (if Strip(t) == "" then [] else [Strip(t)])
  {
    assert [t][1..] == [];
  }

  /**
   The entities text split on commas, each token stripped, blank tokens
   dropped (main.py line 85).
   */
  function ParseEntities(text: string): (r: seq<string>)
    ensures AllEntities(r)
  {
    StripNonBlank(Split(text, ','))
  }

  lemma {:induction false} StripNonBlankEmpty(tokens: seq<string>)
    ensures StripNonBlank(tokens) == [] <==> forall m :: 0 <= m < |tokens| ==> AllSpace(tokens[m])
    decreases |tokens|
  {
    if tokens != [] {
      StripNonBlankEmpty(tokens[1..]);
      assert forall m :: 1 <= m < |tokens| ==> tokens[1..][m - 1] == tokens[m];
    }
  }

  /** Every character is a comma or whitespace. */
  predicate CommasAndSpace(s: string) {
    forall i :: 0 <= i < |s| ==> s[i] == ',' || IsSpace(s[i])
  }

  lemma CommasAndSpaceConcat(a: string, b: string)
    requires CommasAndSpace(a) && CommasAndSpace(b)
    ensures CommasAndSpace(a + b)
  {
    forall i | 0 <= i < |a + b| ensures (a + b)[i] == ',' || IsSpace((a + b)[i]) {
      if i < |a| { assert (a + b)[i] == a[i]; } else { assert (a + b)[i] == b[i - |a|]; }
    }
  }

  /** Joining blank parts with commas gives a string of commas and whitespace. */
  lemma {:induction false} JoinOfBlanks(parts: seq<string>)
    requires forall m :: 0 <= m < |parts| ==> AllSpace(parts[m])
    ensures CommasAndSpace(Join(parts, ","))
    decreases |parts|
  {
    if |parts| == 1 {
      assert AllSpace(parts[0]);
    } else if |parts| > 1 {
      JoinOfBlanks(parts[1..]);
      assert AllSpace(parts[0]);
      CommasAndSpaceConcat(parts[0], ",");
      CommasAndSpaceConcat(parts[0] + ",", Join(parts[1..], ","));
    }
  }

  /**
   The parsed entity list is empty exactly when the entities text holds
   nothing but commas and whitespace.
   */
  lemma ParseEntitiesEmpty(text: string)
    ensures ParseEntities(text) == [] <==> CommasAndSpace(text)
  {
    var tokens := Split(text, ',');
    StripNonBlankEmpty(tokens);
    if CommasAndSpace(text) {
      forall m | 0 <= m < |tokens| ensures AllSpace(tokens[m]) {
        forall j | 0 <= j < |tokens[m]| ensures IsSpace(tokens[m][j]) {
          assert tokens[m][j] in text;
        }
      }
    }
    if ParseEntities(text) == [] {
      JoinSplit(text, ',');
      JoinOfBlanks(tokens);
    }
  }

  lemma {:induction false} ParseAfterSpaces(p: string, es: seq<string>)
    requires AllSpace(p) && ',' !in p
    requires es != [] && AllEntities(es)
    ensures StripNonBlank(Split(p + Join(es, ", "), ',')) == es
    decreases |es|
  {
    if |es| == 1 {
      ParseLastEntity(p, es[0]);
    } else {
      var rest := es[1..];
      assert AllEntities(rest) by {
        forall k | 0 <= k < |rest| ensures IsEntity(rest[k]) { assert rest[k] == es[k + 1]; }
      }
      ParseAfterSpaces(" ", rest);
      ParseFirstEntity(p, es[0], rest);
      assert es == [es[0]] + rest;
    }
  }

  lemma ParseLastEntity(p: string, e: string)
    requires AllSpace(p) && ',' !in p && IsEntity(e)
    ensures StripNonBlank(Split(p + Join([e], ", "), ',')) == [e]
  {
    StripUnique(p, e, []);
    assert p + e + [] == p + e;
    SplitWithoutSeparator(p + e, ',');
    StripNonBlankCons(p + e, []);
    assert [p + e] + [] == [p + e];
  }

  lemma ParseFirstEntity(p: string, e: string, rest: seq<string>)
    requires AllSpace(p) && ',' !in p && IsEntity(e) && rest != []
    ensures StripNonBlank(Split(p + Join([e] + rest, ", "), ','))
         == [e] + StripNonBlank(Split(" " + Join(rest, ", "), ','))
  {
    var more := " " + Join(rest, ", ");
    JoinFront(p, e, rest);
    SplitAtSeparator(p + e, ',', more);
    StripUnique(p, e, []);
    assert p + e + [] == p + e;
    StripNonBlankCons(p + e, Split(more, ','));
  }

  /** The first entity of a join, with what precedes it, up to the first comma. */
  lemma JoinFront(p: string, e: string, rest: seq<string>)
    requires rest != []
    ensures p + Join([e] + rest, ", ") == (p + e) + [','] + (" " + Join(rest, ", "))
  {
    var j := Join(rest, ", ");
    assert ([e] + rest)[1..] == rest;
    assert Join([e] + rest, ", ") == e + ", " + j;
    assert ", " + j == [','] + (" " + j);
  }

  lemma StripNonBlankCons(t: string, tail: seq<string>)
    requires Strip(t) != ""
    ensures StripNonBlank([t] + tail) == [Strip(t)] + StripNonBlank(tail)
  {
    assert ([t] + tail)[1..] == tail;
  }

  /**
   Writing a list of entities as the form displays them, joined with ", ",
   and parsing that text gives the same list back: the parser keeps every
   entity, in order.
   */
  lemma EntitiesRoundTrip(es: seq<string>)
    requires AllEntities(es)
    ensures ParseEntities(Join(es, ", ")) == es
  {
    if es == [] {
      assert Split("", ',') == [""];
      assert StripNonBlank([""]) == [] by { StripNonBlankEmpty([""]); }
    } else {
      ParseAfterSpaces("", es);
      assert "" + Join(es, ", ") == Join(es, ", ");
    }
  }

  /**
   The parse of a comma-separated text: a comma splits the text into two
   parts whose entities follow one another, and a text without a comma is
   one token, kept stripped unless it is blank. The two together fix the
   entities of every text.
   */
  lemma ParseEntitiesComma(a: string, b: string)
    ensures ParseEntities(a + "," + b) == ParseEntities(a) + ParseEntities(b)
  {
    SplitAppend(a, ',', b);
    StripNonBlankAppend(Split(a, ','), Split(b, ','));
  }

  lemma ParseEntitiesToken(t: string)
    requires ',' !in t
    ensures ParseEntities(t) == (if Strip(t) == "" then [] else [Strip(t)])
  {
    SplitWithoutSeparator(t, ',');
    StripNonBlankSingle(t);
  }

  /** A token that is an entity padded by whitespace parses to that entity. */
  lemma ParsePadded(pre: string, e: string, post: string)
    requires AllSpace(pre) && AllSpace(post) && IsEntity(e) && ',' !in pre && ',' !in post
    ensures ParseEntities(pre + e + post) == [e]
  {
    StripUnique(pre, e, post);
    ParseEntitiesToken(pre + e + post);
  }

  /**
   A blank token between two commas is dropped and nothing around it moves:
   `"a, ,b"` parses as `"a,b"` does.
   */
  lemma ParseSkipsBlankToken(a: string, blank: string, b: string)
    requires AllSpace(blank) && ',' !in blank
    ensures ParseEntities(a + "," + (blank + "," + b)) == ParseEntities(a + "," + b)
  {
    DropBlankToken(blank, b);
    ParseEntitiesComma(a, blank + "," + b);
    ParseEntitiesComma(a, b);
  }

  lemma DropBlankToken(blank: string, b: string)
    requires AllSpace(blank) && ',' !in blank
    ensures ParseEntities(blank + "," + b) == ParseEntities(b)
  {
    ParseEntitiesComma(blank, b);
    ParseEntitiesToken(blank);
    assert Strip(blank) == "";
    assert ParseEntities(blank) == [];
  }

  /** Parsing the joined result of a parse changes nothing. */
  lemma ParseEntitiesIdempotent(text: string)
    ensures ParseEntities(Join(ParseEntities(text), ", ")) == ParseEntities(text)
  {
    EntitiesRoundTrip(ParseEntities(text));
  }

  /** The record built at main.py lines 83-88 from the submitted form. */
  function MakeIntent(form: FormInput): (r: Intent)
    ensures r.style == form.style
    ensures IsTrimmed(r.goal) && IsTrimmed(r.notes) && AllEntities(r.entities)
    ensures GoalGiven(form.goal) <==> WellFormed(r)
  {
    Intent(Strip(form.goal), ParseEntities(form.entities), form.style, Strip(form.notes))
  }

  /** The form filled in with a stored intent's own values rebuilds exactly that intent. */
  lemma MakeIntentRoundTrip(i: Intent)
    requires WellFormed(i)
    ensures MakeIntent(FormInput(i.goal, Join(i.entities, ", "), i.style, i.notes)) == i
    ensures GoalGiven(i.goal)
  {
    StripUnique([], i.goal, []);
    assert [] + i.goal + [] == i.goal;
    StripUnique([], i.notes, []);
    assert [] + i.notes + [] == i.notes;
    EntitiesRoundTrip(i.entities);
  }
}
