/** The client entity: the ordered guard chain on its name, id number and phone. */
module ClientEntity {

  import opened Common
  import opened Text

  /** The first check of `validate` that failed. */
  datatype ClientError = MissingName | MissingCedula | MissingPhone

  datatype Client = Client(
    id: Option<nat>,
    nombre: Option<string>,
    cedula: Option<string>,
    direccion: Option<string>,
    telefono: Option<string>,
    referencias: Option<string>,
    modalidadPago: Option<string>,
    assignedTo: Option<int>,
    createdAt: Option<int>,
    createdBy: Option<int>,
    updatedAt: Option<int>,
    updatedBy: Option<int>)
  {
    /** `validate()`: name, then id number, then phone; the first failure decides. */
    function Validate(): (r: Outcome<ClientError>)
      ensures r.Pass? <==> !MissingOrBlank(nombre) && !MissingOrBlank(cedula) && !MissingOrBlank(telefono)
      ensures r == Fail(MissingName) <==> MissingOrBlank(nombre)
      ensures r == Fail(MissingCedula) <==> !MissingOrBlank(nombre) && MissingOrBlank(cedula)
      ensures r == Fail(MissingPhone) <==>
                !MissingOrBlank(nombre) && !MissingOrBlank(cedula) && MissingOrBlank(telefono)
    {
      if MissingOrBlank(nombre) then Fail(MissingName)
      else if MissingOrBlank(cedula) then Fail(MissingCedula)
      else if MissingOrBlank(telefono) then Fail(MissingPhone)
      else Pass
    }
  }
}
