/**
 The three vault entries behind one xAI credential and the write programs of storing and
 deleting it. A binding names the command under which a key was stored; it is a digest of
 the command's scope and key and is taken to be injective.
 */
module CredentialVault {
  import opened Wrappers

  type ApiKey = string

  datatype Scope = Configure | Enroll | Delete

  datatype Command = Command(scope: Scope, key: string)

  datatype Vault = Vault(key: Option<ApiKey>, binding: Option<Command>, marker: Option<bool>)

  datatype Write = SetMarker(resolved: bool) | DeleteBinding | SetKey(key: ApiKey) | SetBinding(binding: Command)
    | DeleteKey | DeleteMarker

  function Apply(v: Vault, write: Write): Vault {
    match write
    case SetMarker(resolved) => v.(marker := Some(resolved))
    case DeleteBinding => v.(binding := None)
    case SetKey(key) => v.(key := Some(key))
    case SetBinding(binding) => v.(binding := Some(binding))
    case DeleteKey => v.(key := None)
    case DeleteMarker => v.(marker := None)
  }

  function ApplyAll(v: Vault, writes: seq<Write>): Vault {
    if writes == [] then v else Apply(ApplyAll(v, writes[..|writes| - 1]), writes[|writes| - 1])
  }

  /** Readiness goes first and comes back last; the binding is absent while the key changes. */
  function StoreProgram(key: ApiKey, binding: Command, resolved: bool): seq<Write> {
    [SetMarker(false), DeleteBinding, SetKey(key), SetBinding(binding)] + (if resolved then [SetMarker(true)] else [])
  }

  const DELETE_PROGRAM: seq<Write> := [DeleteKey, DeleteBinding, DeleteMarker]

  datatype AccountState = AccountState(configured: bool, resolved: bool)

  /** Which key a binding stands for, and which keys passed a capability validation. */
  datatype Facts = Facts(names: map<Command, ApiKey>, validated: set<ApiKey>)

  /** Nothing readable in the vault is a mixture of generations. */
  predicate Coherent(v: Vault, facts: Facts) {
    v.key.Some? && v.binding.Some? ==>
      && v.binding.value in facts.names && facts.names[v.binding.value] == v.key.value
      && (v.marker == Some(true) ==> v.key.value in facts.validated)
  }

  class CredentialStore {
    var vault: Vault

    /** One vault call: a failure may still have taken effect. */
    method Perform(write: Write) returns (ok: bool)
      modifies this
      ensures ok ==> vault == Apply(old(vault), write)
      ensures !ok ==> vault == old(vault) || vault == Apply(old(vault), write)
    {
      ok := *;
      var written: bool := *;
      if ok || written {
        vault := Apply(vault, write);
      }
    }

    /** The vault is some prefix of a program applied to what was there before. */
    ghost predicate Interrupted(before: Vault, program: seq<Write>)
      reads this
    {
      exists n :: 0 <= n <= |program| && vault == ApplyAll(before, program[..n])
    }

    method RunProgram(program: seq<Write>) returns (ok: bool)
      modifies this
      ensures ok ==> vault == ApplyAll(old(vault), program)
      ensures Interrupted(old(vault), program)
    {
      ghost var before := vault;
      var i := 0;
      assert program[..0] == [];
      while i < |program|
        invariant 0 <= i <= |program|
        invariant vault == ApplyAll(before, program[..i])
      {
        assert program[..i + 1][..i] == program[..i];
        assert ApplyAll(before, program[..i + 1]) == Apply(ApplyAll(before, program[..i]), program[i]);
        ok := Perform(program[i]);
        if !ok {
          return;
        }
        i := i + 1;
      }
      assert program[..i] == program;
      return true;
    }

    /** Whatever vault call fails, the old or the new generation is readable, or none; never a mixture. */
    method StoreValidatedKey(key: ApiKey, binding: Command, resolved: bool, ghost facts: Facts)
      returns (result: Result<AccountState, ()>)
      requires Coherent(vault, facts)
      requires binding in facts.names && facts.names[binding] == key && (resolved ==> key in facts.validated)
      modifies this
      ensures Coherent(vault, facts)
      ensures result.Ok? ==>
        && result.value == AccountState(true, resolved)
        && vault == Vault(Some(key), Some(binding), Some(resolved))
    {
      var ok := RunProgram(StoreProgram(key, binding, resolved));
      StoreProgramIsCoherent(old(vault), key, binding, resolved, facts);
      return if ok then Ok(AccountState(true, resolved)) else Err(());
    }

    method DeleteKey(ghost facts: Facts) returns (result: Result<AccountState, ()>)
      requires Coherent(vault, facts)
      modifies this
      ensures Coherent(vault, facts)
      ensures result.Ok? ==> result.value == AccountState(false, false) && vault == Vault(None, None, None)
    {
      var ok := RunProgram(DELETE_PROGRAM);
      DeleteProgramIsCoherent(old(vault), facts);
      return if ok then Ok(AccountState(false, false)) else Err(());
    }
  }

  lemma OneMoreWrite(v: Vault, program: seq<Write>, n: nat)
    requires n < |program|
    ensures ApplyAll(v, program[..n + 1]) == Apply(ApplyAll(v, program[..n]), program[n])
  {
    assert program[..n + 1][..n] == program[..n];
  }

  /** Every prefix of a store leaves the vault coherent, and the whole of it installs the generation. */
  lemma StoreProgramIsCoherent(v: Vault, key: ApiKey, binding: Command, resolved: bool, facts: Facts)
    requires Coherent(v, facts)
    requires binding in facts.names && facts.names[binding] == key && (resolved ==> key in facts.validated)
    ensures forall n :: 0 <= n <= |StoreProgram(key, binding, resolved)| ==>
      Coherent(ApplyAll(v, StoreProgram(key, binding, resolved)[..n]), facts)
    ensures ApplyAll(v, StoreProgram(key, binding, resolved)) == Vault(Some(key), Some(binding), Some(resolved))
  {
    var program := StoreProgram(key, binding, resolved);
    assert program[..0] == [];
    OneMoreWrite(v, program, 0);
    assert ApplyAll(v, program[..1]) == v.(marker := Some(false));
    OneMoreWrite(v, program, 1);
    assert ApplyAll(v, program[..2]) == Vault(v.key, None, Some(false));
    OneMoreWrite(v, program, 2);
    assert ApplyAll(v, program[..3]) == Vault(Some(key), None, Some(false));
    OneMoreWrite(v, program, 3);
    assert ApplyAll(v, program[..4]) == Vault(Some(key), Some(binding), Some(false));
    if resolved {
      OneMoreWrite(v, program, 4);
      assert ApplyAll(v, program[..5]) == Vault(Some(key), Some(binding), Some(true));
    }
    hide ApplyAll;
    assert program[..|program|] == program;
    forall n | 0 <= n <= |program|
      ensures Coherent(ApplyAll(v, program[..n]), facts)
    {
      assert n == 0 || n == 1 || n == 2 || n == 3 || n == 4 || n == 5;
    }
  }

  lemma DeleteProgramIsCoherent(v: Vault, facts: Facts)
    requires Coherent(v, facts)
    ensures forall n :: 0 <= n <= |DELETE_PROGRAM| ==> Coherent(ApplyAll(v, DELETE_PROGRAM[..n]), facts)
    ensures ApplyAll(v, DELETE_PROGRAM) == Vault(None, None, None)
  {
  }
}
