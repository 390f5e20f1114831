/**
 * The per-chat state of the bot and its four handlers (bot.py `start`,
 * `button_handler`, `handle_file`, `handle_text`) as pure transitions from a
 * session and an event to the new session and what the bot sends back.
 *
 * Replies are tagged with what they carry; their wording, emoji, Markdown and
 * inline keyboards are not part of the model. Documents and the archive carry
 * their real names and contents.
 */
module Session {
  import opened Wrappers
  import opened Strings
  import opened Numbers
  import opened VCard
  import opened Split

  /** The three values `settings["mode"]` takes besides None. */
  datatype Mode = TxtUpload | Admin | Neavy

  /** The five settings the settings menu offers to change. */
  datatype Key = ContactsPerFile | VcfPrefix | VcfStart | ContactPrefix | ContactStart

  /** A stored setting: Python keeps an `int` for an all-digit reply and the
      string otherwise. */
  datatype Value = Num(n: nat) | Str(s: string)

  /** One chat's entry of `user_data`. The three counters only ever receive
      integers; the two prefixes may receive either kind of value. */
  datatype Session = Session(
    contactsPerFile: nat,
    vcfPrefix: Value,
    vcfStart: nat,
    contactPrefix: Value,
    contactStart: nat,
    mode: Option<Mode>,
    waitingFor: Option<Key>,
    numbers: seq<string>)

  /** The buttons of the bot's inline keyboards, by the action they trigger. */
  datatype Button = TxtMode | AdminMode | NeavyMode | Settings | SetValue(key: Key) | PreviewVcf | GenerateVcf

  datatype Event =
    | Start                    // the /start command
    | Press(button: Button)    // a tap on an inline button
    | TxtFile(content: string) // a .txt document, already decoded
    | Text(text: string)       // a text message that is not a command

  datatype Reply =
    | Welcome
    | ModePrompt(mode: Mode)
    | SettingsView(contactsPerFile: string, vcfPrefix: string, vcfStart: string, contactPrefix: string, contactStart: string)
    | AskValue(key: Key)
    | VcfPreview(text: string)
    | NoNumbers
    | Archive(name: string, files: seq<VcfFile>)
    | SwitchToTxtFirst
    | Loaded(count: nat, preview: string)
    | MustBeNumber
    | ValueSet(key: Key, value: string)
    | Document(name: string, content: string)

  /** The session after the event, the replies in the order they are sent,
      and whether the handler stopped with an exception. */
  datatype Outcome = Outcome(session: Session, replies: seq<Reply>, raised: bool)

  /** bot.py `get_defaults`. */
  function Defaults(): Session {
    Session(100, Str("contacts"), 1, Str("Contact"), 1, None, None, [])
  }

  /** The name of a setting, as it appears in `user_data` and after `set_`. */
  function KeyName(k: Key): string {
    match k
    case ContactsPerFile => "contacts_per_file"
    case VcfPrefix => "vcf_prefix"
    case VcfStart => "vcf_start"
    case ContactPrefix => "contact_prefix"
    case ContactStart => "contact_start"
  }

  /** The callback data a button carries. */
  function CallbackData(b: Button): string {
    match b
    case TxtMode => "txt_mode"
    case AdminMode => "admin_mode"
    case NeavyMode => "neavy_mode"
    case Settings => "settings"
    case SetValue(k) => "set_" + KeyName(k)
    case PreviewVcf => "preview_vcf"
    case GenerateVcf => "generate_vcf"
  }

  /** The key whose name is `name`, if there is one. */
  function KeyNamed(name: string): (r: Option<Key>)
    ensures r.Some? ==> KeyName(r.value) == name
  {
    if name == "contacts_per_file" then Some(ContactsPerFile)
    else if name == "vcf_prefix" then Some(VcfPrefix)
    else if name == "vcf_start" then Some(VcfStart)
    else if name == "contact_prefix" then Some(ContactPrefix)
    else if name == "contact_start" then Some(ContactStart)
    else None
  }

  /** The `if/elif` chain of `button_handler` read as a parser of callback
      data: the exact names first, then `set_` followed by a setting name. */
  function ParseCallback(data: string): (r: Option<Button>)
    ensures r.Some? ==> CallbackData(r.value) == data
  {
    if data == "txt_mode" then Some(TxtMode)
    else if data == "admin_mode" then Some(AdminMode)
    else if data == "neavy_mode" then Some(NeavyMode)
    else if data == "settings" then Some(Settings)
    else if |data| >= 4 && data[..4] == "set_" then
      match KeyNamed(data[4..])
      case None => None
      case Some(k) =>
        assert data == "set_" + data[4..];
        Some(SetValue(k))
    else if data == "preview_vcf" then Some(PreviewVcf)
    else if data == "generate_vcf" then Some(GenerateVcf)
    else None
  }

  /** Every button is recognised by the branch meant for it. */
  lemma ParseCallbackData(b: Button)
    ensures ParseCallback(CallbackData(b)) == Some(b)
  {
    var d := CallbackData(b);
    match b
    case SetValue(k) =>
      assert d[..4] == "set_" && d[4..] == KeyName(k);
      assert d[0] == 's' && d[3] == '_';
      assert d != "txt_mode" && d != "admin_mode" && d != "neavy_mode";
      assert d != "settings" by { assert "settings"[3] == 't'; }
      assert KeyNamed(KeyName(k)) == Some(k);
    case Settings =>
      assert d[3] == 't';
    case PreviewVcf =>
      assert d[0] == 'p';
    case GenerateVcf =>
      assert d[0] == 'g';
    case _ =>
  }

  /** `str(value)` of a stored setting. */
  function Render(v: Value): string {
    match v
    case Num(n) => NatToString(n)
    case Str(t) => t
  }

  /** `int(value) if value.isdigit() else value`. */
  function Stored(value: string): (r: Value)
    ensures r.Num? <==> IsDigitString(value)
  {
    if IsDigitString(value) then Num(ParseNat(value)) else Str(value)
  }

  /** A stored prefix reads back as typed exactly when it is not a digit
      string with a superfluous leading zero. */
  lemma RenderStored(value: string)
    ensures Render(Stored(value)) == value <==> !IsDigitString(value) || IsCanonical(value)
  {
    if IsDigitString(value) {
      NatToStringParse(value);
    }
  }

  /** A digit-only prefix such as `007` comes back as `7`. */
  lemma RenderStoredLeadingZeros()
    ensures Render(Stored("007")) == "7"
  {
    assert IsDigitString("007");
    assert ParseNat("007") == 7 by {
      assert "007"[..2] == "00";
      assert "00"[..1] == "0";
      assert "0"[..0] == "";
    }
  }

  /** The settings that only take a number. */
  predicate IsNumberKey(k: Key) {
    k == ContactsPerFile || k == VcfStart || k == ContactStart
  }

  /** `settings[key]`. */
  function Setting(s: Session, k: Key): Value {
    match k
    case ContactsPerFile => Num(s.contactsPerFile)
    case VcfPrefix => s.vcfPrefix
    case VcfStart => Num(s.vcfStart)
    case ContactPrefix => s.contactPrefix
    case ContactStart => Num(s.contactStart)
  }

  /** `settings[key] = int(value) if value.isdigit() else value`, for a value
      that passed the number check. */
  function Assign(s: Session, k: Key, value: string): (r: Session)
    requires IsNumberKey(k) ==> IsDigitString(value)
    ensures Setting(r, k) == Stored(value)
    ensures forall k' :: k' != k ==> Setting(r, k') == Setting(s, k')
    ensures r.mode == s.mode && r.waitingFor == s.waitingFor && r.numbers == s.numbers
  {
    match k
    case ContactsPerFile => s.(contactsPerFile := ParseNat(value))
    case VcfPrefix => s.(vcfPrefix := Stored(value))
    case VcfStart => s.(vcfStart := ParseNat(value))
    case ContactPrefix => s.(contactPrefix := Stored(value))
    case ContactStart => s.(contactStart := ParseNat(value))
  }

  /** The settings generation reads, rendered as the f-strings render them. */
  function LayoutOf(s: Session): Layout {
    Layout(s.contactsPerFile, Render(s.vcfPrefix), s.vcfStart, Render(s.contactPrefix), s.contactStart)
  }

  /** bot.py `settings_text`: every setting shown as `str` shows it. */
  function SettingsOf(s: Session): Reply {
    SettingsView(NatToString(s.contactsPerFile), Render(s.vcfPrefix), NatToString(s.vcfStart),
                 Render(s.contactPrefix), NatToString(s.contactStart))
  }

  /** bot.py `generate_vcfs`. `range` with a step of 0 raises before any
      file is written. */
  function GenerateReply(s: Session): Outcome {
    if |s.numbers| == 0 then Outcome(s, [NoNumbers], false)
    else if s.contactsPerFile == 0 then Outcome(s, [], true)
    else Outcome(s, [Archive(Render(s.vcfPrefix) + "_all.zip", Generate(s.numbers, LayoutOf(s)))], false)
  }

  /** bot.py `button_handler`. */
  function HandleButton(s: Session, b: Button): Outcome {
    match b
    case TxtMode => Outcome(s.(mode := Some(TxtUpload)), [ModePrompt(TxtUpload)], false)
    case AdminMode => Outcome(s.(mode := Some(Admin)), [ModePrompt(Admin)], false)
    case NeavyMode => Outcome(s.(mode := Some(Neavy)), [ModePrompt(Neavy)], false)
    case Settings => Outcome(s, [SettingsOf(s)], false)
    case SetValue(k) => Outcome(s.(waitingFor := Some(k)), [AskValue(k)], false)
    case PreviewVcf => Outcome(s, [VcfPreview(Preview(s.numbers, LayoutOf(s)))], false)
    case GenerateVcf => GenerateReply(s)
  }

  /** bot.py `handle_file`, from the decoded text of the document on. */
  function HandleFile(s: Session, content: string): Outcome {
    if s.mode != Some(TxtUpload) then Outcome(s, [SwitchToTxtFirst], false)
    else
      var nums := ExtractNumbers(content);
      Outcome(s.(numbers := nums), [Loaded(|nums|, Join(nums[..Min(50, |nums|)], "\n"))], false)
  }

  /** The label prefix of the Admin and Neavy modes. */
  function ModeName(m: Mode): string {
    if m == Admin then "Admin" else "Neavy"
  }

  /** The two documents of the Admin/Neavy branch of `handle_text`: the
      numbers one per line, and their cards labelled `{prefix}-1`, `{prefix}-2`, ... */
  function SingleFile(m: Mode, text: string): seq<Reply> {
    var nums := ExtractNumbers(text);
    var p := ModeName(m);
    [Document(p + ".txt", Join(nums, "\n")), Document(p + ".vcf", EncodeAll(Labelled(p + "-", 1, nums)))]
  }

  /** bot.py `handle_text`: a pending setting takes the text; otherwise the
      Admin and Neavy modes turn it into two documents. */
  function HandleText(s: Session, text: string): Outcome {
    if s.waitingFor.Some? then
      var k := s.waitingFor.value;
      var value := Strip(text);
      if IsNumberKey(k) && !IsDigitString(value) then
        Outcome(s.(waitingFor := None), [MustBeNumber], false)
      else
        Outcome(Assign(s, k, value).(waitingFor := None), [ValueSet(k, value)], false)
    else if s.mode == Some(Admin) || s.mode == Some(Neavy) then
      Outcome(s, SingleFile(s.mode.value, text), false)
    else Outcome(s, [], false)
  }

  /** One event handled in one chat's session; `/start` replaces the session
      by the defaults. */
  function Handle(s: Session, e: Event): Outcome {
    match e
    case Start => Outcome(Defaults(), [Welcome], false)
    case Press(b) => HandleButton(s, b)
    case TxtFile(c) => HandleFile(s, c)
    case Text(t) => HandleText(s, t)
  }

  /** `user_data`: the session of every chat the bot has heard from. */
  type Chats = map<int, Session>

  /** The session a handler works on: the chat's entry, created with the
      defaults when missing. */
  function SessionOf(store: Chats, chat: int): Session {
    if chat in store then store[chat] else Defaults()
  }

  /** One event in one chat: the store afterwards, the replies and whether
      the handler raised. The chat's entry exists afterwards in every case. */
  function Step(store: Chats, chat: int, e: Event): (Chats, seq<Reply>, bool) {
    var o := Handle(SessionOf(store, chat), e);
    (store[chat := o.session], o.replies, o.raised)
  }

  // ---------------------------------------------------------------------
  // Properties of the transitions

  /** What every session holds: only extracted numbers are ever loaded. */
  predicate WellFormed(s: Session) {
    forall j :: 0 <= j < |s.numbers| ==> IsNumberLine(s.numbers[j])
  }

  /** No event breaks WellFormed: the only writer of `numbers` is the upload
      handler, which stores an extraction. */
  lemma HandleWellFormed(s: Session, e: Event)
    requires WellFormed(s)
    ensures WellFormed(Handle(s, e).session)
  {
    match e
    case Start =>
    case Press(b) =>
      assert Handle(s, e).session.numbers == s.numbers;
    case TxtFile(c) =>
    case Text(t) =>
      assert Handle(s, e).session.numbers == s.numbers;
  }

  /** Every chat's session stays well formed, whatever event arrives in
      whichever chat. */
  lemma StepWellFormed(store: Chats, chat: int, e: Event)
    requires forall c :: c in store ==> WellFormed(store[c])
    ensures forall c :: c in Step(store, chat, e).0 ==> WellFormed(Step(store, chat, e).0[c])
  {
    HandleWellFormed(SessionOf(store, chat), e);
  }

  /** An event touches only its own chat's entry, which exists afterwards. */
  lemma StepFrame(store: Chats, chat: int, e: Event)
    ensures Step(store, chat, e).0.Keys == store.Keys + {chat}
    ensures forall c :: c in store && c != chat ==> Step(store, chat, e).0[c] == store[c]
    ensures Step(store, chat, e).0[chat] == Handle(SessionOf(store, chat), e).session
  {
  }

  /** A chat the bot has never heard from behaves exactly as one holding
      the defaults. */
  lemma StepLazyCreation(store: Chats, chat: int, e: Event)
    requires chat !in store
    ensures Step(store, chat, e) == Step(store[chat := Defaults()], chat, e)
  {
    assert store[chat := Defaults()][chat := Handle(Defaults(), e).session]
           == store[chat := Handle(Defaults(), e).session];
  }

  /** `/start` puts the chat back to the defaults, whatever it held. */
  lemma StartResets(store: Chats, chat: int)
    ensures Step(store, chat, Start).0[chat] == Defaults()
    ensures Step(store, chat, Start).1 == [Welcome]
    ensures Defaults().contactsPerFile == 100 && Defaults().vcfStart == 1 && Defaults().contactStart == 1
    ensures Render(Defaults().vcfPrefix) == "contacts" && Render(Defaults().contactPrefix) == "Contact"
    ensures Defaults().mode.None? && Defaults().waitingFor.None? && Defaults().numbers == []
  {
  }

  /** Buttons never touch the settings or the loaded numbers; only the mode
      buttons change the mode and only the `set_` buttons start waiting for
      a value. */
  lemma ButtonFrame(s: Session, b: Button)
    ensures forall k :: Setting(Handle(s, Press(b)).session, k) == Setting(s, k)
    ensures Handle(s, Press(b)).session.numbers == s.numbers
    ensures !(b.TxtMode? || b.AdminMode? || b.NeavyMode?) ==> Handle(s, Press(b)).session.mode == s.mode
    ensures b.TxtMode? ==> Handle(s, Press(b)).session.mode == Some(TxtUpload)
    ensures b.AdminMode? ==> Handle(s, Press(b)).session.mode == Some(Admin)
    ensures b.NeavyMode? ==> Handle(s, Press(b)).session.mode == Some(Neavy)
    ensures b.SetValue? ==> Handle(s, Press(b)).session.waitingFor == Some(b.key)
    ensures !b.SetValue? ==> Handle(s, Press(b)).session.waitingFor == s.waitingFor
  {
  }

  /** A document outside TXT mode changes nothing; in TXT mode it replaces
      the loaded numbers wholesale and nothing else. The reply counts them
      and lists the first fifty, one per line. */
  lemma FileGate(s: Session, content: string)
    ensures s.mode != Some(TxtUpload) ==> Handle(s, TxtFile(content)) == Outcome(s, [SwitchToTxtFirst], false)
    ensures s.mode == Some(TxtUpload) ==>
      var o := Handle(s, TxtFile(content));
      && o.session == s.(numbers := ExtractNumbers(content))
      && |o.replies| == 1 && o.replies[0].Loaded? && !o.raised
      && o.replies[0].count == |ExtractNumbers(content)|
      && ExtractNumbers(o.replies[0].preview) == ExtractNumbers(content)[..Min(50, |ExtractNumbers(content)|)]
  {
    if s.mode == Some(TxtUpload) {
      var nums := ExtractNumbers(content);
      var head := nums[..Min(50, |nums|)];
      assert forall j :: 0 <= j < |head| ==> head[j] == nums[j];
      ExtractJoinRoundTrip(head);
    }
  }

  /** Text that answers a `set_` button: `waiting_for` is cleared in every
      case and `mode` and `numbers` are never touched. A counter given
      anything but digits keeps every setting; otherwise the stripped text is
      stored under its key (as its integer value when it is all digits) and
      the other settings stay as they were. */
  lemma SettingsEntry(s: Session, text: string)
    requires s.waitingFor.Some?
    ensures var o := Handle(s, Text(text));
      && o.session.waitingFor.None? && o.session.mode == s.mode && o.session.numbers == s.numbers && !o.raised
    ensures var o, k, v := Handle(s, Text(text)), s.waitingFor.value, Strip(text);
      IsNumberKey(k) && !IsDigitString(v) ==>
        (forall k' :: Setting(o.session, k') == Setting(s, k')) && o.replies == [MustBeNumber]
    ensures var o, k, v := Handle(s, Text(text)), s.waitingFor.value, Strip(text);
      !(IsNumberKey(k) && !IsDigitString(v)) ==>
        && Setting(o.session, k) == Stored(v)
        && (forall k' :: k' != k ==> Setting(o.session, k') == Setting(s, k'))
        && o.replies == [ValueSet(k, v)]
    ensures var o, k, v := Handle(s, Text(text)), s.waitingFor.value, Strip(text);
      IsDigitString(v) ==> Setting(o.session, k) == Num(ParseNat(v))
  {
    var k, v := s.waitingFor.value, Strip(text);
    var o := Handle(s, Text(text));
    if IsNumberKey(k) && !IsDigitString(v) {
      forall k' ensures Setting(o.session, k') == Setting(s, k') {
      }
    } else {
      var r := Assign(s, k, v);
      assert o.session == r.(waitingFor := None);
      forall k' ensures Setting(o.session, k') == Setting(r, k') {
      }
    }
  }

  /** "0" passes the number check, so `contacts_per_file` can become 0. */
  lemma ZeroPerFileAccepted(s: Session)
    requires s.waitingFor == Some(ContactsPerFile)
    ensures Handle(s, Text("0")).session.contactsPerFile == 0
  {
    assert Strip("0") == "0";
    assert IsDigitString("0");
    assert ParseNat("0") == ParseNat("") * 10 + 0 by { assert "0"[..0] == ""; }
  }

  /** Generating with no numbers loaded sends the "no numbers" notice and
      changes nothing; with numbers and `contacts_per_file == 0` the handler
      raises, again changing nothing. */
  lemma GenerateGuards(s: Session)
    ensures Handle(s, Press(GenerateVcf)).session == s
    ensures |s.numbers| == 0 ==> Handle(s, Press(GenerateVcf)).replies == [NoNumbers]
    ensures Handle(s, Press(GenerateVcf)).raised <==> |s.numbers| > 0 && s.contactsPerFile == 0
    ensures Handle(s, Press(GenerateVcf)).raised ==> Handle(s, Press(GenerateVcf)).replies == []
  {
  }

  /** With numbers and a positive `contacts_per_file = k`, the bot sends one
      archive `{vcf_prefix}_all.zip` of ceil(n / k) files with distinct
      names, `{vcf_prefix}{vcf_start + i}.vcf`, whose contents read in order
      are the cards of all numbers numbered on from `contact_start`. */
  lemma GenerateArchive(s: Session)
    requires |s.numbers| > 0 && s.contactsPerFile > 0
    ensures var o := Handle(s, Press(GenerateVcf));
      && |o.replies| == 1 && o.replies[0].Archive?
      && o.replies[0].name == Render(s.vcfPrefix) + "_all.zip"
      && |o.replies[0].files| == (|s.numbers| + s.contactsPerFile - 1) / s.contactsPerFile
      && (forall i :: 0 <= i < |o.replies[0].files| ==>
            o.replies[0].files[i].name == VcfName(Render(s.vcfPrefix), s.vcfStart + i))
      && (forall i, j :: 0 <= i < j < |o.replies[0].files| ==> o.replies[0].files[i].name != o.replies[0].files[j].name)
      && Contents(o.replies[0].files) == EncodeAll(Labelled(Render(s.contactPrefix), s.contactStart, s.numbers))
  {
    var l := LayoutOf(s);
    GenerateCount(s.numbers, l);
    GenerateNamesDistinct(s.numbers, l);
    GenerateContents(s.numbers, l);
    forall i | 0 <= i < |Generate(s.numbers, l)|
      ensures Generate(s.numbers, l)[i].name == VcfName(l.vcfPrefix, l.vcfStart + i)
    {
      GenerateNameAt(s.numbers, l, i);
    }
  }

  /** A break-free string has no `\n` in it. */
  lemma NoNewline(x: string)
    requires NoLineBreak(x)
    ensures '\n' !in x
  {
  }

  lemma WellFormedNoNewline(s: Session)
    requires WellFormed(s)
    ensures forall j :: 0 <= j < |s.numbers| ==> '\n' !in s.numbers[j]
  {
    forall j | 0 <= j < |s.numbers|
      ensures '\n' !in s.numbers[j]
    {
      NoNewline(s.numbers[j]);
    }
  }

  /** The preview shows the first min(10, n) cards, and is exactly the text
      the archive begins with when it can be generated. */
  lemma PreviewReply(s: Session)
    requires WellFormed(s)
    ensures var o := Handle(s, Press(PreviewVcf));
      && o.session == s && |o.replies| == 1 && o.replies[0].VcfPreview?
      && o.replies[0].text == Preview(s.numbers, LayoutOf(s))
    ensures s.contactsPerFile > 0 ==>
      Handle(s, Press(PreviewVcf)).replies[0].text <= Contents(Generate(s.numbers, LayoutOf(s)))
    ensures '\n' !in Render(s.contactPrefix) ==>
      && Decode(Handle(s, Press(PreviewVcf)).replies[0].text)
         == Some(Labelled(Render(s.contactPrefix), s.contactStart, s.numbers[..Min(10, |s.numbers|)]))
      && |Decode(Handle(s, Press(PreviewVcf)).replies[0].text).value| == Min(10, |s.numbers|)
  {
    var l := LayoutOf(s);
    assert Handle(s, Press(PreviewVcf)) == Outcome(s, [VcfPreview(Preview(s.numbers, l))], false);
    if '\n' !in Render(s.contactPrefix) {
      WellFormedNoNewline(s);
      PreviewCards(s.numbers, l);
    }
    if s.contactsPerFile > 0 {
      PreviewIsPrefix(s.numbers, l);
    }
  }

  /** The `.txt` of the Admin/Neavy branch extracts back to exactly the
      numbers of the message. */
  lemma SingleFileText(m: Mode, text: string)
    ensures SingleFile(m, text)[0] == Document(ModeName(m) + ".txt", SingleFile(m, text)[0].content)
    ensures ExtractNumbers(SingleFile(m, text)[0].content) == ExtractNumbers(text)
  {
    ExtractJoinRoundTrip(ExtractNumbers(text));
  }

  /** The `.vcf` of the Admin/Neavy branch: its j-th card (from 0) is
      labelled `{Admin|Neavy}-{j + 1}` and carries the j-th number with a
      `+` in front. */
  lemma SingleFileCards(m: Mode, text: string)
    ensures SingleFile(m, text)[1].Document? && SingleFile(m, text)[1].name == ModeName(m) + ".vcf"
    ensures Decode(SingleFile(m, text)[1].content) == Some(Labelled(ModeName(m) + "-", 1, ExtractNumbers(text)))
    ensures |Labelled(ModeName(m) + "-", 1, ExtractNumbers(text))| == |ExtractNumbers(text)|
    ensures forall j :: 0 <= j < |ExtractNumbers(text)| ==>
      Labelled(ModeName(m) + "-", 1, ExtractNumbers(text))[j]
      == Card(ModeName(m) + "-" + NatToString(j + 1), Normalize(ExtractNumbers(text)[j]))
  {
    var p, nums := ModeName(m), ExtractNumbers(text);
    forall j | 0 <= j < |nums|
      ensures '\n' !in nums[j]
    {
      NoNewline(nums[j]);
    }
    assert '\n' !in p + "-";
    LabelledDecodable(p + "-", 1, nums);
    DecodeEncodeAll(Labelled(p + "-", 1, nums));
    LabelledAt(p + "-", 1, nums);
  }

  /** Admin/Neavy text leaves the session as it is and sends the `.txt`
      and then the `.vcf` of the message's numbers. */
  lemma SingleFileDocuments(s: Session, text: string)
    requires s.waitingFor.None? && (s.mode == Some(Admin) || s.mode == Some(Neavy))
    ensures Handle(s, Text(text)) == Outcome(s, SingleFile(s.mode.value, text), false)
    ensures |SingleFile(s.mode.value, text)| == 2
  {
  }

  /** The Admin/Neavy documents depend on the mode and the text alone: the
      contact prefix and start have no say in them. */
  lemma SingleFileIgnoresSettings(s1: Session, s2: Session, text: string)
    requires s1.waitingFor.None? && s2.waitingFor.None? && s1.mode == s2.mode
    ensures Handle(s1, Text(text)).replies == Handle(s2, Text(text)).replies
  {
  }

  /** Outside the Admin and Neavy modes, text that answers no `set_`
      button is ignored. */
  lemma TextIgnored(s: Session, text: string)
    requires s.waitingFor.None? && s.mode != Some(Admin) && s.mode != Some(Neavy)
    ensures Handle(s, Text(text)) == Outcome(s, [], false)
  {
  }
}
