/** Command dispatch of src/handler.ts: a message's content is split into a command name
    and its arguments, and the name is looked up in the merged table of the reminder
    commands and the meta commands. */
module Handler {
  import opened Strings
  import Utils

  /** The functions of the merged command table (`{ ...reminders, ...meta }`). */
  datatype Command =
    | HelpCommand | ReminderCommand | PeriodicReminderCommand | DelayCommand | ListCommand | ClearCommand
    | CheckRemindersCommand | LoadCommand | SaveCommand | InviteCommand

  /** The table's keys: every exported name with its alias. */
  const CommandNames: set<string> :=
    {"help", "h", "reminder", "r", "periodicreminder", "pr", "delay", "d", "list", "l", "clear", "c",
     "checkreminders", "load", "save", "invite"}

  /** `commandList[name]`. */
  function CommandFor(name: string): Option<Command>
  {
    match name
    case "help" => Some(HelpCommand)
    case "h" => Some(HelpCommand)
    case "reminder" => Some(ReminderCommand)
    case "r" => Some(ReminderCommand)
    case "periodicreminder" => Some(PeriodicReminderCommand)
    case "pr" => Some(PeriodicReminderCommand)
    case "delay" => Some(DelayCommand)
    case "d" => Some(DelayCommand)
    case "list" => Some(ListCommand)
    case "l" => Some(ListCommand)
    case "clear" => Some(ClearCommand)
    case "c" => Some(ClearCommand)
    case "checkreminders" => Some(CheckRemindersCommand)
    case "load" => Some(LoadCommand)
    case "save" => Some(SaveCommand)
    case "invite" => Some(InviteCommand)
    case _ => None
  }

  /** A name runs a command exactly when it is a key of the table, and each short alias
      runs the same function as its long name. */
  lemma CommandTable(name: string)
    ensures CommandFor(name).Some? <==> name in CommandNames
    ensures CommandFor("h") == CommandFor("help") && CommandFor("r") == CommandFor("reminder")
    ensures CommandFor("pr") == CommandFor("periodicreminder") && CommandFor("d") == CommandFor("delay")
    ensures CommandFor("l") == CommandFor("list") && CommandFor("c") == CommandFor("clear")
  {
  }

  /** `filter(item => item !== "")`. */
  function NonEmpty(pieces: seq<string>): (r: seq<string>)
    ensures forall k :: 0 <= k < |r| ==> r[k] != ""
    ensures forall k :: 0 <= k < |r| ==> r[k] in pieces
  {
    if pieces == [] then []
    else (if pieces[0] == "" then [] else [pieces[0]]) + NonEmpty(pieces[1..])
  }

  /** The name and arguments of a command message. */
  datatype Invocation = Invocation(name: string, args: seq<string>)

  /** The non-empty pieces between the spaces of `content`. */
  function Pieces(content: string): seq<string>
  {
    NonEmpty(Split(content, ' '))
  }

  /** The splitting of `handleCommand`: the name is the first piece without its first
      character (the prefix) and the arguments are the other pieces in order. Content with
      no piece makes `content[0].slice` throw, which is None here. */
  function SplitCommand(content: string): Option<Invocation>
  {
    var pieces := Pieces(content);
    if pieces == [] then None else Some(Invocation(pieces[0][1..], pieces[1..]))
  }

  /** No argument is empty or holds a space; the arguments and the name with its prefix are
      exactly the pieces. */
  lemma SplitCommandPieces(content: string)
    ensures var r := SplitCommand(content);
            r.Some? ==> && (forall k :: 0 <= k < |r.value.args| ==> r.value.args[k] != "" && ' ' !in r.value.args[k])
                        && ' ' !in r.value.name
                        && exists c :: c != ' ' && Pieces(content) == [[c] + r.value.name] + r.value.args
  {
    var pieces := Pieces(content);
    if pieces != [] {
      forall k | 0 <= k < |pieces|
        ensures pieces[k] != "" && ' ' !in pieces[k]
      {
        assert pieces[k] in Split(content, ' ');
      }
      var c := pieces[0][0];
      assert pieces[0] == [c] + pieces[0][1..];
      assert pieces == [[c] + pieces[0][1..]] + pieces[1..];
    }
  }

  /** `content` without its spaces. */
  function WithoutSpaces(s: string): string
  {
    if s == [] then [] else (if s[0] == ' ' then [] else [s[0]]) + WithoutSpaces(s[1..])
  }

  lemma {:induction false} WithoutSpacesAppend(a: string, b: string)
    ensures WithoutSpaces(a + b) == WithoutSpaces(a) + WithoutSpaces(b)
  {
    if a != [] {
      assert (a + b)[1..] == a[1..] + b;
      WithoutSpacesAppend(a[1..], b);
    } else {
      assert a + b == b;
    }
  }

  lemma {:induction false} WithoutSpacesNone(s: string)
    requires ' ' !in s
    ensures WithoutSpaces(s) == s
  {
    if s != [] {
      WithoutSpacesNone(s[1..]);
    }
  }

  lemma {:induction false} ConcatNonEmpty(pieces: seq<string>)
    ensures Concat(NonEmpty(pieces)) == Concat(pieces)
  {
    if pieces != [] {
      ConcatNonEmpty(pieces[1..]);
      ConcatPrepend(if pieces[0] == "" then [] else [pieces[0]], NonEmpty(pieces[1..]));
    }
  }

  lemma {:induction false} ConcatPrepend(a: seq<string>, b: seq<string>)
    requires |a| <= 1
    ensures Concat(a + b) == Concat(a) + Concat(b)
  {
    if a != [] {
      assert (a + b)[1..] == b;
      assert a[1..] == [];
    } else {
      assert a + b == b;
    }
  }

  lemma {:induction false} ConcatSplit(s: string)
    ensures Concat(Split(s, ' ')) == WithoutSpaces(s)
    decreases |s|
  {
    if ' ' in s {
      var i := IndexOf(s, ' ');
      var rest := s[i + 1..];
      ConcatSplit(rest);
      assert s == s[..i] + ([' '] + rest);
      WithoutSpacesAppend(s[..i], [' '] + rest);
      WithoutSpacesNone(s[..i]);
      ConcatPrepend([s[..i]], Split(rest, ' '));
    } else {
      WithoutSpacesNone(s);
    }
  }

  /** The pieces hold every character of the content except the spaces, in order. */
  lemma PiecesKeepText(content: string)
    ensures Concat(Pieces(content)) == WithoutSpaces(content)
    ensures Pieces(content) == [] <==> WithoutSpaces(content) == []
  {
    ConcatNonEmpty(Split(content, ' '));
    ConcatSplit(content);
    var pieces := Pieces(content);
    if pieces != [] {
      assert Concat(pieces) == pieces[0] + Concat(pieces[1..]);
    }
  }

  /** Writing a prefixed name and its arguments with single spaces between them gives them
      back. */
  lemma SplitCommandJoin(prefix: char, name: string, args: seq<string>)
    requires prefix != ' ' && ' ' !in name
    requires forall k :: 0 <= k < |args| ==> args[k] != "" && ' ' !in args[k]
    ensures SplitCommand(Join([[prefix] + name] + args, " ")) == Some(Invocation(name, args))
  {
    var pieces := [[prefix] + name] + args;
    NoSpacePieces(prefix, name, args);
    SplitJoin(pieces, ' ');
    assert [' '] == " ";
    NonEmptyKeeps(pieces);
    assert ([prefix] + name)[1..] == name;
  }

  lemma NoSpacePieces(prefix: char, name: string, args: seq<string>)
    requires prefix != ' ' && ' ' !in name
    requires forall k :: 0 <= k < |args| ==> args[k] != "" && ' ' !in args[k]
    ensures var pieces := [[prefix] + name] + args;
            forall k :: 0 <= k < |pieces| ==> pieces[k] != "" && ' ' !in pieces[k]
  {
    var pieces := [[prefix] + name] + args;
    forall k | 0 <= k < |pieces|
      ensures pieces[k] != "" && ' ' !in pieces[k]
    {
      if k > 0 {
        assert pieces[k] == args[k - 1];
      }
    }
  }

  lemma {:induction false} NonEmptyKeeps(pieces: seq<string>)
    requires forall k :: 0 <= k < |pieces| ==> pieces[k] != ""
    ensures NonEmpty(pieces) == pieces
  {
    if pieces != [] {
      NonEmptyKeeps(pieces[1..]);
    }
  }

  /** `handleCommand(message)`: the command to run and its arguments; None when the name is
      not in the table. */
  function HandleCommand(content: string): Option<(Command, seq<string>)>
  {
    match SplitCommand(content)
    case None => None
    case Some(inv) => if CommandFor(inv.name).Some? then Some((CommandFor(inv.name).value, inv.args)) else None
  }

  /** A message runs a command exactly when its name is a key of the table; then the
      arguments are the pieces after the name. */
  lemma HandleCommandRuns(content: string)
    ensures HandleCommand(content).Some? <==> SplitCommand(content).Some? && SplitCommand(content).value.name in CommandNames
    ensures HandleCommand(content).Some? ==> HandleCommand(content).value.1 == Pieces(content)[1..]
  {
    if SplitCommand(content).Some? {
      CommandTable(SplitCommand(content).value.name);
    }
  }

  /** `reminderEventIntervalMs` and `checkBatteryIntervalMs`. */
  const ReminderEventIntervalMs: int := Utils.Seconds(45)
  const CheckBatteryIntervalMs: int := Utils.Minutes(60)
}
