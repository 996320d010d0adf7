/** The member form: its nine-field state, the edit prefill and create defaults the effect
    installs, the single-field change handler and the payload a submission hands back. */
module MemberModal {
  import opened Text
  import opened Js
  import opened Calendar

  /** The `name` attribute of each form control. */
  datatype FieldName =
    | Name | Email | Phone | JoinDate | MembershipType | ExpiryDate | Trainer | Freeze | GuestPasses

  function Key(f: FieldName): string {
    match f
    case Name => "name"
    case Email => "email"
    case Phone => "phone"
    case JoinDate => "joinDate"
    case MembershipType => "membershipType"
    case ExpiryDate => "expiryDate"
    case Trainer => "trainer"
    case Freeze => "freeze"
    case GuestPasses => "guestPasses"
  }

  /** `formData`, in the order its properties are written. */
  datatype FormData = FormData(
    name: Value, email: Value, phone: Value, joinDate: Value, membershipType: Value,
    expiryDate: Value, trainer: Value, freeze: Value, guestPasses: Value)

  function FieldOf(fd: FormData, f: FieldName): Value {
    match f
    case Name => fd.name
    case Email => fd.email
    case Phone => fd.phone
    case JoinDate => fd.joinDate
    case MembershipType => fd.membershipType
    case ExpiryDate => fd.expiryDate
    case Trainer => fd.trainer
    case Freeze => fd.freeze
    case GuestPasses => fd.guestPasses
  }

  /** `{ ...prev, [name]: value }` for one of the nine controls. */
  function With(fd: FormData, f: FieldName, v: Value): (r: FormData)
    ensures FieldOf(r, f) == v
    ensures forall g :: g != f ==> FieldOf(r, g) == FieldOf(fd, g)
  {
    match f
    case Name => fd.(name := v)
    case Email => fd.(email := v)
    case Phone => fd.(phone := v)
    case JoinDate => fd.(joinDate := v)
    case MembershipType => fd.(membershipType := v)
    case ExpiryDate => fd.(expiryDate := v)
    case Trainer => fd.(trainer := v)
    case Freeze => fd.(freeze := v)
    case GuestPasses => fd.(guestPasses := v)
  }

  /** The `useState` initial value. */
  const InitialForm: FormData := FormData(
    Str(""), Str(""), Str(""), Str(""), Str(""), Str(""), Str(""), Str("false"), Num(0))

  /** The edit branch of the effect: seven fields copied, a falsy trainer made `''`, and
      `freeze.toString()`, which throws (None) when the member has no `freeze`. */
  function Prefill(m: Record): (r: Option<FormData>)
    ensures r.None? <==> Get(m, "freeze").Undefined? || Get(m, "freeze").Null?
    ensures r.Some? ==>
      && (forall f :: f != Trainer && f != Freeze ==> FieldOf(r.value, f) == Get(m, Key(f)))
      && r.value.trainer == (if Truthy(Get(m, "trainer")) then Get(m, "trainer") else Str(""))
      && r.value.freeze == Str(ToString(Get(m, "freeze")))
  {
    match MethodToString(Get(m, "freeze"))
    case None => None
    case Some(frozen) =>
      var trainer := Get(m, "trainer");
      Some(FormData(
        Get(m, "name"), Get(m, "email"), Get(m, "phone"), Get(m, "joinDate"),
        Get(m, "membershipType"), Get(m, "expiryDate"),
        if Truthy(trainer) then trainer else Str(""),
        Str(frozen), Get(m, "guestPasses")))
  }

  /** The create branch of the effect, for the local date `today`. */
  function CreateDefaults(today: Date): (fd: FormData)
    requires Valid(today)
    ensures forall f :: f in {Name, Email, Phone, MembershipType, Trainer} ==> FieldOf(fd, f) == Str("")
    ensures fd.freeze == Str("false") && fd.guestPasses == Num(0)
    ensures fd.joinDate == Str(IsoDate(today))
    ensures fd.expiryDate == Str(IsoDate(NextYear(today)))
  {
    FormData(
      Str(""), Str(""), Str(""), Str(IsoDate(today)), Str(""),
      Str(IsoDate(NextYear(today))), Str(""), Str("false"), Num(0))
  }

  /** The order in which `formData` lists its properties, which `...formData` keeps. */
  const FieldOrder: seq<FieldName> :=
    [Name, Email, Phone, JoinDate, MembershipType, ExpiryDate, Trainer, Freeze, GuestPasses]

  function KeysOf(fs: seq<FieldName>): (ks: seq<string>)
    ensures |ks| == |fs| && forall i :: 0 <= i < |fs| ==> ks[i] == Key(fs[i])
  {
    seq(|fs|, i requires 0 <= i < |fs| => Key(fs[i]))
  }

  /** The fields `fs` of the form as a record, in the order given. */
  function RecordOf(fd: FormData, fs: seq<FieldName>): Record {
    if fs == [] then [] else [Field(Key(fs[0]), FieldOf(fd, fs[0]))] + RecordOf(fd, fs[1..])
  }

  /** The form as a record: its nine properties in order. */
  function FormRecord(fd: FormData): Record {
    RecordOf(fd, FieldOrder)
  }

  lemma KeyInjective(f: FieldName, g: FieldName)
    requires Key(f) == Key(g)
    ensures f == g
  {
  }

  /** A record of distinct fields yields each field's value under its key, and has exactly
      their keys. */
  lemma {:induction false} RecordOfLaws(fd: FormData, fs: seq<FieldName>)
    ensures Keys(RecordOf(fd, fs)) == KeysOf(fs)
    ensures forall f :: f in fs ==> Get(RecordOf(fd, fs), Key(f)) == FieldOf(fd, f)
  {
    if fs != [] {
      RecordOfLaws(fd, fs[1..]);
      var r := RecordOf(fd, fs);
      assert r[1..] == RecordOf(fd, fs[1..]);
      assert KeysOf(fs) == [Key(fs[0])] + KeysOf(fs[1..]);
      forall f | f in fs
        ensures Get(r, Key(f)) == FieldOf(fd, f)
      {
        if Key(f) == Key(fs[0]) {
          KeyInjective(f, fs[0]);
        } else {
          assert f in fs[1..];
        }
      }
    }
  }

  /** `formData.freeze === 'true'`. */
  function FreezeFlag(v: Value): bool {
    v == Str("true")
  }

  /** `parseInt(formData.guestPasses) || 0`: `parseInt` reads `String(v)`; NaN (and 0) give 0. */
  function GuestPassCount(v: Value): int {
    match ParseInt(ToString(v))
    case NaN => 0
    case Int(n) => n
  }

  /** The object `handleSubmit` passes to `onSubmit`. */
  function Payload(fd: FormData): Record {
    Put(Put(FormRecord(fd), "freeze", Bool(FreezeFlag(fd.freeze))),
        "guestPasses", Num(GuestPassCount(fd.guestPasses)))
  }

  /** The payload has exactly the nine form keys, in order, and no `id`; `freeze` is true iff
      the control says exactly `"true"`; `guestPasses` is the parsed integer or 0, negative
      numbers included; the seven other fields pass through unchanged. */
  lemma PayloadShape(fd: FormData)
    ensures Keys(Payload(fd)) == KeysOf(FieldOrder) && "id" !in Keys(Payload(fd))
    ensures Get(Payload(fd), "freeze") == Bool(fd.freeze == Str("true"))
    ensures Get(Payload(fd), "guestPasses") == Num(GuestPassCount(fd.guestPasses))
    ensures forall f :: f != Freeze && f != GuestPasses ==> Get(Payload(fd), Key(f)) == FieldOf(fd, f)
  {
    PayloadKeys(fd);
    PayloadOverrides(fd);
    forall f | f != Freeze && f != GuestPasses
      ensures Get(Payload(fd), Key(f)) == FieldOf(fd, f)
    {
      PayloadField(fd, f);
    }
  }

  lemma PayloadOverrides(fd: FormData)
    ensures Get(Payload(fd), "freeze") == Bool(fd.freeze == Str("true"))
    ensures Get(Payload(fd), "guestPasses") == Num(GuestPassCount(fd.guestPasses))
  {
    OverrideTwice(FormRecord(fd), Bool(FreezeFlag(fd.freeze)), Num(GuestPassCount(fd.guestPasses)));
  }

  /** The two overrides of the submission, on any record. */
  lemma OverrideTwice(r: Record, frozen: Value, passes: Value)
    ensures Get(Put(Put(r, "freeze", frozen), "guestPasses", passes), "freeze") == frozen
    ensures Get(Put(Put(r, "freeze", frozen), "guestPasses", passes), "guestPasses") == passes
  {
    PutLaws(r, "freeze", frozen);
    PutLaws(Put(r, "freeze", frozen), "guestPasses", passes);
    assert |"freeze"| != |"guestPasses"|;
  }

  lemma PayloadField(fd: FormData, f: FieldName)
    requires f != Freeze && f != GuestPasses
    ensures Get(Payload(fd), Key(f)) == FieldOf(fd, f)
  {
    var r0 := FormRecord(fd);
    var r1 := Put(r0, "freeze", Bool(FreezeFlag(fd.freeze)));
    var k := Key(f);
    assert k != "freeze" && k != "guestPasses" by {
      assert |k| != 6 && |k| != 11;
    }
    PutLaws(r0, "freeze", Bool(FreezeFlag(fd.freeze)));
    PutLaws(r1, "guestPasses", Num(GuestPassCount(fd.guestPasses)));
    assert Get(Payload(fd), k) == Get(r1, k) == Get(r0, k);
    RecordOfLaws(fd, FieldOrder);
    assert f in FieldOrder;
  }

  lemma PayloadKeys(fd: FormData)
    ensures Keys(Payload(fd)) == KeysOf(FieldOrder) && "id" !in Keys(Payload(fd))
  {
    var r0 := FormRecord(fd);
    var r1 := Put(r0, "freeze", Bool(FreezeFlag(fd.freeze)));
    RecordOfLaws(fd, FieldOrder);
    FormKeysFacts();
    PutLaws(r0, "freeze", Bool(FreezeFlag(fd.freeze)));
    PutLaws(r1, "guestPasses", Num(GuestPassCount(fd.guestPasses)));
  }

  lemma FormKeysFacts()
    ensures "freeze" in KeysOf(FieldOrder) && "guestPasses" in KeysOf(FieldOrder)
    ensures "id" !in KeysOf(FieldOrder)
  {
    var ks := KeysOf(FieldOrder);
    assert ks[7] == Key(Freeze) && ks[8] == Key(GuestPasses);
    forall i | 0 <= i < |ks|
      ensures ks[i] != "id"
    {
      assert ks[i] == Key(FieldOrder[i]);
    }
  }

  /** The submission's conversion of the count does not clamp: text such as `"-3"` becomes
      `-3`; an emptied field becomes 0. */
  lemma NegativeGuestPasses()
    ensures GuestPassCount(Str("-3")) == -3
  {
    assert IntToString(-3) == "-3" by {
      assert NatToString(3) == "3";
    }
    ParseIntOfIntToString(-3);
  }

  lemma EmptyGuestPasses()
    ensures GuestPassCount(Str("")) == 0
  {
  }

  /** Editing a member whose `freeze` is a boolean and `guestPasses` an integer and saving
      without a change writes back those same two values, and the seven copied fields. */
  lemma PrefillSubmitRoundTrip(m: Record, b: bool, n: int)
    requires Get(m, "freeze") == Bool(b) && Get(m, "guestPasses") == Num(n)
    ensures Prefill(m).Some?
    ensures Get(Payload(Prefill(m).value), "freeze") == Bool(b)
    ensures Get(Payload(Prefill(m).value), "guestPasses") == Num(n)
    ensures forall f :: f != Trainer && f != Freeze && f != GuestPasses ==>
              Get(Payload(Prefill(m).value), Key(f)) == Get(m, Key(f))
  {
    var fd := Prefill(m).value;
    PayloadShape(fd);
    ParseIntOfIntToString(n);
  }

  /** The create defaults submit `freeze: false` and `guestPasses: 0`. */
  lemma DefaultsPayload(today: Date)
    requires Valid(today)
    ensures Get(Payload(CreateDefaults(today)), "freeze") == Bool(false)
    ensures Get(Payload(CreateDefaults(today)), "guestPasses") == Num(0)
  {
    var fd := CreateDefaults(today);
    assert fd.freeze == Str("false") && fd.guestPasses == Num(0);
    PayloadOverrides(fd);
    ZeroGuestPasses();
  }

  lemma ZeroGuestPasses()
    ensures GuestPassCount(Num(0)) == 0
  {
    ParseIntOfIntToString(0);
  }

  lemma Text2024()
    ensures YearText(2024) == "2024" && YearText(2025) == "2025"
  {
    assert NatToString(2) == "2";
    assert NatToString(20) == "20";
    assert NatToString(202) == "202";
    assert NatToString(2024) == "2024";
    assert NatToString(2025) == "2025";
  }

  lemma TwoDigits()
    ensures Pad(1, 2) == "01" && Pad(3, 2) == "03" && Pad(10, 2) == "10"
  {
    assert NatToString(1) == "1" && NatToString(3) == "3";
    assert NatToString(10) == "10";
    assert Zeros(1) == "0";
  }

  /** For 2024-01-10 the defaults are joined 2024-01-10 and expiring 2025-01-10; a
      February 29 runs on to March 1 of the next year. */
  lemma DefaultsExamples()
    ensures CreateDefaults(Date(2024, 1, 10)).joinDate == Str("2024-01-10")
    ensures CreateDefaults(Date(2024, 1, 10)).expiryDate == Str("2025-01-10")
    ensures CreateDefaults(Date(2024, 2, 29)).expiryDate == Str("2025-03-01")
  {
    Text2024();
    TwoDigits();
    assert NextYear(Date(2024, 2, 29)) == Date(2025, 3, 1);
  }

  /** The mounted form. The modal is mounted while it is shown, so every opening starts from
      `InitialForm` and the effect then installs the prefill or the defaults. */
  class MemberForm {
    var data: FormData

    constructor()
      ensures data == InitialForm
    {
      data := InitialForm;
    }

    /** The effect on `[member]`, with today's local date. It fails only when the member has
      no `freeze` to call `toString` on, and then writes nothing to the form state. */
    method Sync(member: Option<Record>, today: Date) returns (ok: bool)
      requires Valid(today)
      modifies this
      ensures member.None? ==> ok && data == CreateDefaults(today)
      ensures member.Some? ==> ok == Prefill(member.value).Some?
      ensures member.Some? && ok ==> data == Prefill(member.value).value
      ensures !ok ==> data == old(data)
    {
      if member.None? {
        data := CreateDefaults(today);
        ok := true;
      } else {
        var filled := Prefill(member.value);
        ok := filled.Some?;
        if ok {
          data := filled.value;
        }
      }
    }

    /** `handleChange`: the control named `f` now holds the text `value`; nothing else moves. */
    method HandleChange(f: FieldName, value: string)
      modifies this
      ensures FieldOf(data, f) == Str(value)
      ensures forall g :: g != f ==> FieldOf(data, g) == FieldOf(old(data), g)
    {
      data := With(data, f, Str(value));
    }

    /** `handleSubmit`: the payload for the caller; the form itself is unchanged. */
    method HandleSubmit() returns (payload: Record)
      ensures Keys(payload) == KeysOf(FieldOrder) && "id" !in Keys(payload)
      ensures Get(payload, "freeze") == Bool(data.freeze == Str("true"))
      ensures Get(payload, "guestPasses") == Num(GuestPassCount(data.guestPasses))
      ensures forall f :: f != Freeze && f != GuestPasses ==> Get(payload, Key(f)) == FieldOf(data, f)
    {
      PayloadShape(data);
      payload := Payload(data);
    }
  }
}
