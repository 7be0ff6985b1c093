/**
 * The inline helpers of the runtime's FORMAT control: a character cursor
 * over the format string (skip blanks, peek, take the next character,
 * report a bad format with the format echoed), the capitalization of edit
 * descriptor letters, the list-directed and NAMELIST tests of a data edit,
 * and the size of a FormatControl with a shortened iteration stack.
 * Background: subclause 13.4 of Fortran 2018.
 */
module Format {
  import opened Wrappers

  /** The IOSTAT= value signalled for a bad FORMAT. */
  datatype Iostat = IostatErrorInFormat

  /**
   * The text of a signalled error. BadFormat is the message of a bad-format
   * report: the caller's message, the offset, and the trimmed format when
   * anything but spaces is left to echo.
   */
  datatype Message =
    | Text(text: string)
    | BadFormat(msg: string, offset: int, echo: Option<string>)

  datatype Signal = Signal(iostat: Iostat, message: Message)

  /** An I/O error handler or I/O statement context, seen as the record of the errors signalled to it. */
  class IoErrorHandler {
    var signals: seq<Signal>

    constructor ()
      ensures signals == []
    {
      signals := [];
    }

    method SignalError(iostat: Iostat, message: Message)
      modifies this
      ensures signals == old(signals) + [Signal(iostat, message)]
    {
      signals := signals + [Signal(iostat, message)];
    }
  }

  /** The characters SkipBlanks passes over: space, horizontal tab and vertical tab. */
  predicate IsBlank(ch: char)
  {
    ch == ' ' || ch == '\t' || ch == '\U{0B}'
  }

  /**
   * Where skipping blanks from `offset` stops within the first `length`
   * characters of `format`: at the end, or at the first character that is
   * not a blank; an offset already past the end stays where it is.
   */
  function SkipBlanksFrom(format: seq<char>, length: int, offset: int): (r: int)
    requires 0 <= length <= |format| && 0 <= offset
    ensures offset <= r
    ensures offset <= length ==> r <= length
    ensures offset >= length ==> r == offset
    ensures forall k :: offset <= k < r ==> k < length && IsBlank(format[k])
    ensures r < length ==> !IsBlank(format[r])
    decreases length - offset
  {
    if offset < length && IsBlank(format[offset]) then SkipBlanksFrom(format, length, offset + 1) else offset
  }

  /** Skipping blanks twice is skipping them once. */
  lemma SkipBlanksIdempotent(format: seq<char>, length: int, offset: int)
    requires 0 <= length <= |format| && 0 <= offset
    ensures SkipBlanksFrom(format, length, SkipBlanksFrom(format, length, offset)) == SkipBlanksFrom(format, length, offset)
  {
  }

  /** FormatControl: a cursor `offset` over the first `formatLength` characters of `format`. */
  class FormatControl {
    var format: seq<char>
    var formatLength: int
    var offset: int

    ghost predicate Valid()
      reads this
    {
      0 <= formatLength <= |format| && 0 <= offset
    }

    /** A control positioned at the start of the format. */
    constructor (format: seq<char>, formatLength: int)
      requires 0 <= formatLength <= |format|
      ensures Valid()
      ensures this.format == format && this.formatLength == formatLength && offset == 0
    {
      this.format := format;
      this.formatLength := formatLength;
      offset := 0;
    }

    /** Advances the cursor over blanks; changes nothing else. */
    method SkipBlanks()
      requires Valid()
      modifies this`offset
      ensures Valid()
      ensures offset == SkipBlanksFrom(format, formatLength, old(offset))
    {
      while offset < formatLength &&
          (format[offset] == ' ' || format[offset] == '\t' || format[offset] == '\U{0B}')
        invariant Valid()
        invariant old(offset) <= offset
        invariant SkipBlanksFrom(format, formatLength, offset) == SkipBlanksFrom(format, formatLength, old(offset))
        decreases formatLength - offset
      {
        offset := offset + 1;
      }
    }

    /** Skips blanks and returns the character there without consuming it, or '\0' at the end. */
    method PeekNext() returns (ch: char)
      requires Valid()
      modifies this`offset
      ensures Valid()
      ensures offset == SkipBlanksFrom(format, formatLength, old(offset))
      ensures ch == if offset < formatLength then format[offset] else '\0'
    {
      SkipBlanks();
      ch := if offset < formatLength then format[offset] else '\0';
    }

    /**
     * Skips blanks and consumes the next character. At the end of the format
     * it signals IostatErrorInFormat instead (an empty format and a format
     * missing its closing parenthesis get different messages) and returns a
     * newline without consuming anything.
     */
    method GetNextChar(handler: IoErrorHandler) returns (ch: char)
      requires Valid()
      modifies this`offset, handler
      ensures Valid()
      ensures var skipped := SkipBlanksFrom(format, formatLength, old(offset));
              if skipped >= formatLength then
                && ch == '\n'
                && offset == skipped
                && handler.signals == old(handler.signals) + [Signal(IostatErrorInFormat,
                     Text(if formatLength == 0 then "Empty or badly assigned FORMAT" else "FORMAT missing at least one ')'"))]
              else
                && ch == format[skipped]
                && !IsBlank(ch)
                && offset == skipped + 1
                && handler.signals == old(handler.signals)
    {
      SkipBlanks();
      if offset >= formatLength {
        if formatLength == 0 {
          handler.SignalError(IostatErrorInFormat, Text("Empty or badly assigned FORMAT"));
        } else {
          handler.SignalError(IostatErrorInFormat, Text("FORMAT missing at least one ')'"));
        }
        return '\n';
      }
      ch := format[offset];
      offset := offset + 1;
    }

    /**
     * Signals IostatErrorInFormat with `msg` and `offsetInFormat`, echoing the
     * format with its leading and trailing spaces removed; when nothing but
     * spaces is left the message carries no echo.
     */
    method ReportBadFormat(context: IoErrorHandler, msg: string, offsetInFormat: int)
      requires Valid()
      modifies context
      ensures context.signals == old(context.signals)
                + [Signal(IostatErrorInFormat, BadFormat(msg, offsetInFormat, Echo(format[..formatLength])))]
    {
      var firstNonBlank := 0;
      while firstNonBlank < formatLength && format[firstNonBlank] == ' '
        invariant 0 <= firstNonBlank <= formatLength
        invariant forall k :: 0 <= k < firstNonBlank ==> format[k] == ' '
      {
        firstNonBlank := firstNonBlank + 1;
      }
      var lastNonBlank := formatLength - 1;
      while lastNonBlank > firstNonBlank && format[lastNonBlank] == ' '
        invariant firstNonBlank - 1 <= lastNonBlank <= formatLength - 1
        invariant firstNonBlank < formatLength ==> firstNonBlank <= lastNonBlank
        invariant forall k :: lastNonBlank < k < formatLength ==> format[k] == ' '
      {
        lastNonBlank := lastNonBlank - 1;
      }
      EchoBounds(format[..formatLength], firstNonBlank, lastNonBlank);
      if firstNonBlank <= lastNonBlank {
        assert format[..formatLength][firstNonBlank..lastNonBlank + 1] == format[firstNonBlank..lastNonBlank + 1];
        context.SignalError(IostatErrorInFormat,
          BadFormat(msg, offsetInFormat, Some(format[firstNonBlank..lastNonBlank + 1])));
        return;
      }
      context.SignalError(IostatErrorInFormat, BadFormat(msg, offsetInFormat, None));
    }
  }

  /** Number of spaces at the start of `s`. */
  function LeadingSpaces(s: string): (n: nat)
    ensures n <= |s|
    ensures forall k :: 0 <= k < n ==> s[k] == ' '
    ensures n < |s| ==> s[n] != ' '
  {
    if s != [] && s[0] == ' ' then 1 + LeadingSpaces(s[1..]) else 0
  }

  /** Number of spaces at the end of `s`. */
  function TrailingSpaces(s: string): (n: nat)
    ensures n <= |s|
    ensures forall k :: |s| - n <= k < |s| ==> s[k] == ' '
    ensures n < |s| ==> s[|s| - 1 - n] != ' '
  {
    if s != [] && s[|s| - 1] == ' ' then 1 + TrailingSpaces(s[..|s| - 1]) else 0
  }

  /** The echo of a bad format: `s` without its leading and trailing spaces, or None if only spaces remain. */
  function Echo(s: string): (r: Option<string>)
    ensures r.Some? ==> 0 < |r.value| <= |s| && r.value[0] != ' ' && r.value[|r.value| - 1] != ' '
  {
    var lead := LeadingSpaces(s);
    if lead == |s| then None
    else
      assert s[lead] != ' ';
      assert lead + TrailingSpaces(s) < |s|;
      Some(s[lead..|s| - TrailingSpaces(s)])
  }

  /** `n` spaces. */
  function Spaces(n: nat): (r: string)
    ensures |r| == n && forall k :: 0 <= k < n ==> r[k] == ' '
  {
    if n == 0 then [] else Spaces(n - 1) + [' ']
  }

  /**
   * Two scans that stop at the first non-space from the front and, not
   * passing it, at the last non-space from the back, delimit the echo.
   */
  lemma EchoBounds(s: string, first: int, last: int)
    requires 0 <= first <= |s| && first - 1 <= last <= |s| - 1
    requires forall k :: 0 <= k < first ==> s[k] == ' '
    requires first < |s| ==> s[first] != ' ' && first <= last
    requires forall k :: last < k < |s| ==> s[k] == ' '
    requires first < last ==> s[last] != ' '
    ensures Echo(s) == if first <= last then Some(s[first..last + 1]) else None
  {
    var lead := LeadingSpaces(s);
    if first < |s| {
      assert lead == first;
      var trail := TrailingSpaces(s);
      if first < last {
        assert trail == |s| - 1 - last;
      } else {
        assert last == first;
        assert trail == |s| - 1 - last;
      }
    } else {
      assert lead == |s|;
    }
  }

  /** Nothing is echoed exactly when the format is empty or all spaces. */
  lemma EchoNoneIffAllSpaces(s: string)
    ensures Echo(s).None? <==> forall k :: 0 <= k < |s| ==> s[k] == ' '
  {
  }

  /**
   * The echo is the format with only spaces removed, and only at both ends:
   * it is not empty, starts and ends with a non-space, and the format is the
   * echo surrounded by spaces.
   */
  lemma {:induction false} EchoTrimsOnlySpaces(s: string)
    requires Echo(s).Some?
    ensures var e := Echo(s).value;
            && |e| > 0 && e[0] != ' ' && e[|e| - 1] != ' '
            && s == Spaces(LeadingSpaces(s)) + e + Spaces(TrailingSpaces(s))
  {
    var lead, trail := LeadingSpaces(s), TrailingSpaces(s);
    assert lead < |s|;
    assert s[lead] != ' ';
    assert lead + trail < |s|;
    var e := s[lead..|s| - trail];
    assert s == s[..lead] + e + s[|s| - trail..];
    assert s[..lead] == Spaces(lead);
    assert s[|s| - trail..] == Spaces(trail);
  }

  /**
   * Tabs are echoed: only spaces are trimmed. Every character of the format
   * other than a space, a tab included, lies between the trimmed ends and
   * appears in the echo at its own position.
   */
  lemma {:induction false} EchoKeepsTabs(s: string)
    ensures forall k :: 0 <= k < |s| && s[k] != ' ' ==>
              var lead := LeadingSpaces(s);
              && Echo(s).Some?
              && lead <= k < |s| - TrailingSpaces(s)
              && Echo(s).value[k - lead] == s[k]
  {
    forall k | 0 <= k < |s| && s[k] != ' ' {
      EchoKeepsCharacter(s, k);
    }
  }

  /** One character other than a space lies inside the echo, at its own position. */
  lemma {:induction false} EchoKeepsCharacter(s: string, k: nat)
    requires k < |s| && s[k] != ' '
    ensures Echo(s).Some?
    ensures LeadingSpaces(s) <= k < |s| - TrailingSpaces(s)
    ensures Echo(s).value[k - LeadingSpaces(s)] == s[k]
  {
    var lead, trail := LeadingSpaces(s), TrailingSpaces(s);
    assert lead <= k < |s| - trail;
    assert Echo(s) == Some(s[lead..|s| - trail]);
  }

  /** A leading tab is echoed while the spaces around the format are trimmed. */
  lemma EchoKeepsTabsExample()
    ensures Echo(" \t(I5) ") == Some("\t(I5)")
  {
    var s := " \t(I5) ";
    assert LeadingSpaces(s[1..]) == 0;
    assert LeadingSpaces(s) == 1;
    assert s[..|s| - 1] == " \t(I5)";
    assert TrailingSpaces(" \t(I5)") == 0;
    assert TrailingSpaces(s) == 1;
    assert s[1..6] == "\t(I5)";
  }

  /** Capitalize: a lower-case letter becomes its upper-case letter, every other character is left alone. */
  function Capitalize(ch: char): (r: char)
    ensures 'a' <= ch <= 'z' ==> 'A' <= r <= 'Z' && r as int - 'A' as int == ch as int - 'a' as int
    ensures !('a' <= ch <= 'z') ==> r == ch
  {
    if 'a' <= ch <= 'z' then (ch as int + 'A' as int - 'a' as int) as char else ch
  }

  /** Capitalizing never yields a lower-case letter, so capitalizing twice is capitalizing once. */
  lemma CapitalizeIdempotent(ch: char)
    ensures !('a' <= Capitalize(ch) <= 'z')
    ensures Capitalize(Capitalize(ch)) == Capitalize(ch)
  {
  }

  /** MutableModes: the one mode the data edit tests consult. */
  datatype MutableModes = MutableModes(inNamelist: bool)

  /** A data edit descriptor: its (capitalized) letter, or one of the internal list-directed markers. */
  datatype DataEdit = DataEdit(descriptor: char, modes: MutableModes)

  const ListDirected: char := 'g'
  const ListDirectedRealPart: char := 'r'
  const ListDirectedImaginaryPart: char := 'z'
  const ListDirectedNullValue: char := 'n'
  const DefinedDerivedType: char := 'd'

  /**
   * List-directed: one of the three internal list-directed edit markers.
   * They are lower-case, so no capitalized edit descriptor is taken for one,
   * and neither the null-value marker nor DT is list-directed.
   */
  function IsListDirected(edit: DataEdit): (r: bool)
    ensures r ==> 'a' <= edit.descriptor <= 'z'
    ensures r ==> edit.descriptor != ListDirectedNullValue && edit.descriptor != DefinedDerivedType
  {
    edit.descriptor == ListDirected || edit.descriptor == ListDirectedRealPart
    || edit.descriptor == ListDirectedImaginaryPart
  }

  /** NAMELIST: a list-directed edit while NAMELIST I/O is in progress; outside NAMELIST I/O never. */
  function IsNamelist(edit: DataEdit): (r: bool)
    ensures r ==> IsListDirected(edit)
    ensures !edit.modes.inNamelist ==> !r
  {
    IsListDirected(edit) && edit.modes.inNamelist
  }

  /**
   * The data edits the descriptor letters name (capitalized, 'A' to 'Z')
   * are never taken for list-directed or NAMELIST edits, whatever the mode;
   * neither are the null-value marker nor DT; and capitalizing any letter
   * yields an edit that is neither.
   */
  lemma DataEditClassification(edit: DataEdit)
    ensures 'A' <= edit.descriptor <= 'Z' ==> !IsListDirected(edit) && !IsNamelist(edit)
    ensures edit.descriptor == ListDirectedNullValue || edit.descriptor == DefinedDerivedType ==> !IsListDirected(edit)
    ensures !IsListDirected(DataEdit(Capitalize(edit.descriptor), edit.modes))
    ensures !IsNamelist(DataEdit(Capitalize(edit.descriptor), edit.modes))
  {
  }

  // ---------------------------------------------------------------------
  // Size of a FormatControl whose iteration stack is cut to `maxHeight`.

  /** Depth of the full iteration stack. */
  const MaxMaxHeight: int := 100

  /** Values of std::size_t are taken modulo 2^64. */
  const SizeModulus: int := 0x1_0000_0000_0000_0000

  /** sizeof(FormatControl) with the full stack, and sizeof(Iteration), in bytes. */
  datatype ObjectSizes = ObjectSizes(formatControl: nat, iteration: nat)

  /** The full object holds MaxMaxHeight iterations and its size is a size_t. */
  predicate ValidSizes(z: ObjectSizes)
  {
    z.iteration * MaxMaxHeight <= z.formatControl < SizeModulus
  }

  /** `MaxMaxHeight - maxHeight` is computed as an int and must not overflow. */
  predicate HeightInRange(maxHeight: int)
  {
    -0x8000_0000 <= MaxMaxHeight - maxHeight <= 0x7FFF_FFFF
  }

  lemma MulMonotoneRight(a: nat, b: int, c: int)
    requires b <= c
    ensures a * b <= a * c
  {
    assert a * c == a * b + a * (c - b);
  }

  /** Within the stack's depth the subtraction does not wrap around. */
  lemma NeededSizeNoWrap(z: ObjectSizes, maxHeight: int)
    requires ValidSizes(z)
    ensures 0 <= maxHeight <= MaxMaxHeight ==> 0 <= z.formatControl - z.iteration * (MaxMaxHeight - maxHeight) < SizeModulus
  {
    if 0 <= maxHeight <= MaxMaxHeight {
      MulMonotoneRight(z.iteration, MaxMaxHeight - maxHeight, MaxMaxHeight);
    }
  }

  /** GetNeededSize: the full size less one Iteration for every level below MaxMaxHeight, as a size_t. */
  function GetNeededSize(z: ObjectSizes, maxHeight: int): (r: nat)
    requires ValidSizes(z) && HeightInRange(maxHeight)
    ensures r < SizeModulus
    ensures 0 <= maxHeight <= MaxMaxHeight ==> r + z.iteration * (MaxMaxHeight - maxHeight) == z.formatControl
  {
    NeededSizeNoWrap(z, maxHeight);
    (z.formatControl - z.iteration * (MaxMaxHeight - maxHeight)) % SizeModulus
  }

  /**
   * With the full stack the needed size is the whole object; every level
   * removed saves exactly one Iteration, so the size grows with maxHeight.
   */
  lemma NeededSizeMonotone(z: ObjectSizes, h1: int, h2: int)
    requires ValidSizes(z) && 0 <= h1 <= h2 <= MaxMaxHeight
    ensures GetNeededSize(z, MaxMaxHeight) == z.formatControl
    ensures GetNeededSize(z, h1) <= GetNeededSize(z, h2)
    ensures GetNeededSize(z, h2) - GetNeededSize(z, h1) == z.iteration * (h2 - h1)
  {
    MulMonotoneRight(z.iteration, MaxMaxHeight - h2, MaxMaxHeight - h1);
    assert z.iteration * (MaxMaxHeight - h1) == z.iteration * (MaxMaxHeight - h2) + z.iteration * (h2 - h1);
  }
}
