/**
 The instruction text sent to the model with the document (main.py,
 `build_system_prompt`): a fixed template with the intent's values
 interpolated, as `textwrap.dedent(...).strip()` leaves it.
 */
module Prompt {
  import opened Optional
  import opened Text
  import opened Intent

  /**
   The fixed text of the template, in the pieces that stand between the
   interpolated values.
   */
  datatype Template = Template(
    intro: string,
    goalLabel: string,
    styleLabel: string,
    entitiesLabel: string,
    notesLabel: string,
    instructions: string,
    directiveOpen: string,
    directiveClose: string,
    closing: string)

  const GoalLabel := "- **Primary goal** : "
  const StyleLabel := "- **Preferred output style** : "
  const EntitiesLabel := "- **Specific entities to extract** : "
  const NotesLabel := "- **Additional instructions** : "
  const DirectiveOpen := "3. Present the answer in "
  const DirectiveClose := " format."
  const NoEntitiesMarker := "None specified"
  const NoNotesMarker := "None"

  /**
   The template of main.py lines 24-40 after dedent and strip. The directives
   are numbered as the source numbers them: 1, 2, 3, 4, 6, 7.
   */
  const SystemTemplate := Template(
    "You are a professional document analyst.  \nThe user uploaded a PDF and wants the following:\n\n",
    GoalLabel, StyleLabel, EntitiesLabel, NotesLabel,
    "\nINSTRUCTIONS:\n1. Read the PDF carefully.\n2. Extract only **relevant** information that satisfies the user's goal.\n",
    DirectiveOpen, DirectiveClose,
    "\n4. Use clear headings, bullet points, tables, or numbered lists where appropriate.\n6. If the requested information is **not present**, say so explicitly.\n7. Do not add external knowledge beyond what the PDF contains.\n\nBegin your response with a short 1-sentence summary, then proceed with the detailed answer.")

  /**
   `", ".join(entities) or "None specified"`: never empty; the marker for no
   entities, the joined list whenever the join is non-empty, which it is as
   soon as there are two entities or one non-empty entity.
   */
  function EntitiesField(entities: seq<string>): (r: string)
    ensures r != ""
    ensures entities == [] ==> r == NoEntitiesMarker
    ensures (|entities| >= 2 || exists k :: 0 <= k < |entities| && entities[k] != "") ==> r == Join(entities, ", ")
  {
    var joined := Join(entities, ", ");
    if joined == "" then NoEntitiesMarker else joined
  }

  /** `notes or "None"`: never empty; the notes themselves unless they are empty. */
  function NotesField(notes: string): (r: string)
    ensures r != ""
    ensures notes != "" ==> r == notes
    ensures notes == "" ==> r == NoNotesMarker
  {
    if notes == "" then NoNotesMarker else notes
  }

  /** The pieces of a filled template, in order: fixed text and labelled value lines. */
  function Pieces(t: Template, intent: Intent): seq<string> {
    var style := StyleName(intent.style);
    [ t.intro,
      t.goalLabel + intent.goal + "\n",
      t.styleLabel + style + "\n",
      t.entitiesLabel + EntitiesField(intent.entities) + "\n",
      t.notesLabel + NotesField(intent.notes) + "\n",
      t.instructions,
      t.directiveOpen + style + t.directiveClose,
      t.closing ]
  }

  /** The template's fixed text with the intent's values in their places. */
  function Fill(t: Template, intent: Intent): string {
    Concat(Pieces(t, intent))
  }

  /**
   The prompt: each value of the intent after its label on a line of its
   own, the style once more in the third directive, and the fallback markers
   for empty entities and empty notes.
   */
  function BuildPrompt(intent: Intent): (r: string)
    ensures Contains(r, GoalLabel + intent.goal + "\n")
    ensures Contains(r, StyleLabel + StyleName(intent.style) + "\n")
    ensures Contains(r, EntitiesLabel + EntitiesField(intent.entities) + "\n")
    ensures Contains(r, NotesLabel + NotesField(intent.notes) + "\n")
    ensures Contains(r, DirectiveOpen + StyleName(intent.style) + DirectiveClose)
    ensures Contains(r, intent.goal) && Contains(r, StyleName(intent.style))
  {
    var parts := Pieces(SystemTemplate, intent);
    ConcatContains(parts, 1);
    ConcatContains(parts, 2);
    ConcatContains(parts, 3);
    ConcatContains(parts, 4);
    ConcatContains(parts, 6);
    var r := Concat(parts);
    ContainsInfix(r, GoalLabel, intent.goal, "\n");
    ContainsInfix(r, StyleLabel, StyleName(intent.style), "\n");
    r
  }

  /** The fallback markers appear exactly when the intent has no entities or no notes. */
  lemma PromptFallbacks(intent: Intent)
    requires AllEntities(intent.entities)
    ensures var r := BuildPrompt(intent);
      && (intent.entities == [] ==> Contains(r, EntitiesLabel + NoEntitiesMarker + "\n"))
      && (intent.entities != [] ==> Contains(r, EntitiesLabel + Join(intent.entities, ", ") + "\n"))
      && (intent.notes == "" ==> Contains(r, NotesLabel + NoNotesMarker + "\n"))
      && (intent.notes != "" ==> Contains(r, NotesLabel + intent.notes + "\n"))
  {
    EntitiesFieldFallback(intent.entities);
  }

  lemma EntitiesFieldFallback(es: seq<string>)
    requires AllEntities(es)
    ensures es == [] ==> EntitiesField(es) == NoEntitiesMarker
    ensures es != [] ==> EntitiesField(es) == Join(es, ", ")
  {
    if es != [] {
      assert IsEntity(es[0]);
      assert |Join(es, ", ")| >= |es[0]|;
    }
  }

  /** The four values a prompt carries, as text, in the order they appear. */
  datatype PromptFields = PromptFields(goal: string, style: string, entities: string, notes: string)

  /** The rest of the line that `s` begins with after `key`, and what follows that line. */
  function ReadLine(s: string, key: string): Option<(string, string)> {
    match After(s, key)
    case None => None
    case Some(rest) => Some(TakeLine(rest))
  }

  lemma ReadLineOf(key: string, v: string, rest: string)
    requires '\n' !in v
    ensures ReadLine(key + v + "\n" + rest, key) == Some((v, rest))
  {
    assert key + v + "\n" + rest == key + (v + "\n" + rest);
    AfterPrefix(key, v + "\n" + rest);
    TakeLineOf(v, rest);
  }

  /**
   Reads a prompt written from template `t` back into its values: the intro,
   then the goal, style, entities and notes lines, each after its label.
   */
  function ReadFields(t: Template, prompt: string): Option<PromptFields> {
    match After(prompt, t.intro)
    case None => None
    case Some(p1) =>
      match ReadLine(p1, t.goalLabel)
      case None => None
      case Some((goal, p2)) =>
        match ReadLine(p2, t.styleLabel)
        case None => None
        case Some((style, p3)) =>
          match ReadLine(p3, t.entitiesLabel)
          case None => None
          case Some((entities, p4)) =>
            match ReadLine(p4, t.notesLabel)
            case None => None
            case Some((notes, _)) => Some(PromptFields(goal, style, entities, notes))
  }

  /** No line break in any value the template interpolates. */
  predicate SingleLine(intent: Intent) {
    && '\n' !in intent.goal
    && '\n' !in intent.notes
    && forall k :: 0 <= k < |intent.entities| ==> '\n' !in intent.entities[k]
  }

  lemma {:induction false} ReadFieldsOfFill(t: Template, intent: Intent)
    requires SingleLine(intent)
    ensures ReadFields(t, Fill(t, intent))
         == Some(PromptFields(intent.goal, StyleName(intent.style), EntitiesField(intent.entities), NotesField(intent.notes)))
  {
    var parts := Pieces(t, intent);
    var r1, r2, r3, r4, r5 := Concat(parts[1..]), Concat(parts[2..]), Concat(parts[3..]), Concat(parts[4..]), Concat(parts[5..]);
    assert parts[1..][1..] == parts[2..];
    assert parts[2..][1..] == parts[3..];
    assert parts[3..][1..] == parts[4..];
    assert parts[4..][1..] == parts[5..];
    AfterPrefix(t.intro, r1);
    ReadLineOf(t.goalLabel, intent.goal, r2);
    ReadLineOf(t.styleLabel, StyleName(intent.style), r3);
    JoinAvoids(intent.entities, ", ", '\n');
    ReadLineOf(t.entitiesLabel, EntitiesField(intent.entities), r4);
    ReadLineOf(t.notesLabel, NotesField(intent.notes), r5);
  }

  /**
   The prompt is unambiguous: when no value holds a line break, reading the
   prompt back gives the goal, the style name, the entities (or the marker)
   and the notes (or the marker), in that order; a non-empty entity list
   parses back from its line unchanged.
   */
  lemma PromptReadsBack(intent: Intent)
    requires SingleLine(intent)
    ensures ReadFields(SystemTemplate, BuildPrompt(intent))
         == Some(PromptFields(intent.goal, StyleName(intent.style), EntitiesField(intent.entities), NotesField(intent.notes)))
    ensures AllEntities(intent.entities) && intent.entities != [] ==>
      ParseEntities(ReadFields(SystemTemplate, BuildPrompt(intent)).value.entities) == intent.entities
  {
    ReadFieldsOfFill(SystemTemplate, intent);
    if AllEntities(intent.entities) && intent.entities != [] {
      EntitiesFieldFallback(intent.entities);
      EntitiesRoundTrip(intent.entities);
    }
  }

  /**
   The invoice example: a goal, two entities typed as "Invoice Number, Total",
   the Table style and no notes. The form gives this intent ...
   */
  lemma InvoiceIntent()
    ensures MakeIntent(FormInput("List all invoice totals", "Invoice Number, Total", Table, ""))
         == Intent("List all invoice totals", ["Invoice Number", "Total"], Table, "")
  {
    InvoiceEntities();
    var goal := "List all invoice totals";
    StripUnique([], goal, []);
    assert [] + goal + [] == goal;
    StripUnique([], "", []);
  }

  lemma InvoiceEntities()
    ensures ParseEntities("Invoice Number, Total") == ["Invoice Number", "Total"]
  {
    var es := ["Invoice Number", "Total"];
    assert Join(es, ", ") == "Invoice Number, Total";
    assert IsEntity(es[0]) && IsEntity(es[1]);
    EntitiesRoundTrip(es);
  }

  /** ... and its prompt names both entities, the style and the empty-notes marker. */
  lemma InvoicePrompt()
    ensures var r := BuildPrompt(Intent("List all invoice totals", ["Invoice Number", "Total"], Table, ""));
      && Contains(r, "Invoice Number, Total")
      && Contains(r, "Table")
      && Contains(r, NotesLabel + NoNotesMarker + "\n")
  {
    var i := Intent("List all invoice totals", ["Invoice Number", "Total"], Table, "");
    assert Join(i.entities, ", ") == "Invoice Number, Total";
    assert AllEntities(i.entities);
    PromptFallbacks(i);
    ContainsInfix(BuildPrompt(i), EntitiesLabel, "Invoice Number, Total", "\n");
  }
}
